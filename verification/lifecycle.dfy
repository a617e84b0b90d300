/** The entry lifecycle: the invariant tying timers to entries, what each
    operation does to it, and what follows for callbacks over any run of
    operations and timer firings. */
module Lifecycle {
  import opened Wrappers
  import opened Json
  import opened Keys
  import opened TtlCache

  /** Every entry's handle is pending, with a timer whose key normalizes to
      the entry's key; every pending timer is the handle of such an entry. */
  predicate TimersMatchEntries<V>(c: Cache<V>)
  {
    && (forall k | k in c.entries ::
          c.entries[k].handle in c.pending && Serialize(c.pending[c.entries[k].handle].key) == k)
    && (forall h | h in c.pending ::
          Serialize(c.pending[h].key) in c.entries && c.entries[Serialize(c.pending[h].key)].handle == h)
  }

  /** Pending and notified handles were all handed out already, and a
      handle that has been notified is no longer pending. */
  predicate HandlesIssued<V>(c: Cache<V>)
  {
    && (forall h | h in c.pending :: h < c.nextHandle)
    && (forall i | 0 <= i < |c.log| :: c.log[i].handle < c.nextHandle && c.log[i].handle !in c.pending)
  }

  /** No entry has had its callback called twice. */
  predicate NotifiedAtMostOnce<V>(c: Cache<V>)
  {
    forall i, j | 0 <= i < j < |c.log| :: c.log[i].handle != c.log[j].handle
  }

  predicate Inv<V>(c: Cache<V>)
  {
    TimersMatchEntries(c) && HandlesIssued(c) && NotifiedAtMostOnce(c)
  }

  /** A handle that was handed out and is no longer pending: its entry was
      removed, superseded or cleared. */
  predicate Retired<V>(c: Cache<V>, h: Handle)
  {
    h < c.nextHandle && h !in c.pending
  }

  lemma HandlesDistinct<V>(c: Cache<V>, k1: string, k2: string)
    requires TimersMatchEntries(c)
    requires k1 in c.entries && k2 in c.entries && k1 != k2
    ensures c.entries[k1].handle != c.entries[k2].handle
  {
  }

  // ---------------------------------------------------------------------
  // The invariant holds initially and after every operation.

  lemma CreateInv<V>(defaultTtl: Option<int>)
    ensures Inv(Create<V>(defaultTtl))
  {
  }

  lemma PutInv<V>(c: Cache<V>, key: JsValue, value: V, options: PutOptions)
    requires Inv(c)
    ensures Inv(Put(c, key, value, options))
  {
    PutTimers(c, key, value, options);
    PutKeepsEntriesTimed(c, key, value, options);
    PutKeepsTimersOwned(c, key, value, options);
  }

  lemma PutKeepsEntriesTimed<V>(c: Cache<V>, key: JsValue, value: V, options: PutOptions)
    requires Inv(c)
    ensures var r := Put(c, key, value, options);
      forall k' | k' in r.entries ::
        r.entries[k'].handle in r.pending && Serialize(r.pending[r.entries[k'].handle].key) == k'
  {
    var r := Put(c, key, value, options);
    var k := Serialize(key);
    PutTimers(c, key, value, options);
    forall k' | k' in r.entries && k' != k
      ensures r.entries[k'].handle in r.pending && Serialize(r.pending[r.entries[k'].handle].key) == k'
    {
      if k in c.entries {
        HandlesDistinct(c, k, k');
      }
    }
  }

  lemma PutKeepsTimersOwned<V>(c: Cache<V>, key: JsValue, value: V, options: PutOptions)
    requires Inv(c)
    ensures var r := Put(c, key, value, options);
      forall g | g in r.pending ::
        Serialize(r.pending[g].key) in r.entries && r.entries[Serialize(r.pending[g].key)].handle == g
  {
    var r := Put(c, key, value, options);
    PutTimers(c, key, value, options);
    forall g | g in r.pending && g != c.nextHandle
      ensures Serialize(r.pending[g].key) in r.entries && r.entries[Serialize(r.pending[g].key)].handle == g
    {
      assert c.entries[Serialize(c.pending[g].key)].handle == g;
    }
  }

  lemma {:induction false} RemoveInv<V>(c: Cache<V>, key: JsValue)
    requires Inv(c)
    ensures Inv(Remove(c, key))
  {
    if Serialize(key) in c.entries {
      RemoveKeepsTimersMatched(c, key);
      RemoveKeepsHandlesIssued(c, key);
      RemoveKeepsNotifiedOnce(c, key);
    }
  }

  lemma RemoveKeepsTimersMatched<V>(c: Cache<V>, key: JsValue)
    requires Inv(c) && Serialize(key) in c.entries
    ensures TimersMatchEntries(Remove(c, key))
  {
    var k := Serialize(key);
    var r := Remove(c, key);
    RemovePresent(c, key);
    forall k' | k' in r.entries
      ensures r.entries[k'].handle in r.pending && Serialize(r.pending[r.entries[k'].handle].key) == k'
    {
      HandlesDistinct(c, k, k');
    }
  }

  lemma RemoveKeepsHandlesIssued<V>(c: Cache<V>, key: JsValue)
    requires Inv(c) && Serialize(key) in c.entries
    ensures HandlesIssued(Remove(c, key))
  {
    var r := Remove(c, key);
    RemovePresent(c, key);
    forall i | 0 <= i < |r.log|
      ensures r.log[i].handle < r.nextHandle && r.log[i].handle !in r.pending
    {
      if i < |c.log| {
        assert r.log[i] == c.log[i];
      }
    }
  }

  lemma RemoveKeepsNotifiedOnce<V>(c: Cache<V>, key: JsValue)
    requires Inv(c) && Serialize(key) in c.entries
    ensures NotifiedAtMostOnce(Remove(c, key))
  {
    var r := Remove(c, key);
    var h := c.entries[Serialize(key)].handle;
    RemovePresent(c, key);
    forall i, j | 0 <= i < j < |r.log|
      ensures r.log[i].handle != r.log[j].handle
    {
      assert r.log[i] == c.log[i];
      if j < |c.log| {
        assert r.log[j] == c.log[j];
      } else {
        assert r.log[j].handle == h && h in c.pending;
      }
    }
  }

  lemma ClearInv<V>(c: Cache<V>)
    requires Inv(c)
    ensures Inv(Clear(c))
  {
    ClearCancelsEverything(c);
  }

  lemma {:induction false} FireInv<V>(c: Cache<V>, h: Handle)
    requires Inv(c)
    ensures Inv(Fire(c, h))
  {
    if h in c.pending {
      FireIsRemove(c, h);
      RemoveInv(c, c.pending[h].key);
    }
  }

  // ---------------------------------------------------------------------
  // put

  /** `put` cancels the superseded entry's timer and schedules exactly one
      new timer, for the original key and with the TTL of the call; every
      other timer stays as it was. */
  lemma PutTimers<V>(c: Cache<V>, key: JsValue, value: V, options: PutOptions)
    requires Inv(c)
    ensures var r := Put(c, key, value, options);
      && var k := Serialize(key);
      && var h := c.nextHandle;
      && h !in c.pending
      && r.entries[k].handle == h
      && h in r.pending && r.pending[h] == Timer(key, EffectiveTtl(options, c.defaultTtl))
      && (k in c.entries ==> c.entries[k].handle !in r.pending)
      && (forall g | g in c.pending && (k !in c.entries || g != c.entries[k].handle) ::
            g in r.pending && r.pending[g] == c.pending[g])
      && (forall g | g in r.pending :: g == h || g in c.pending)
      && r.nextHandle == h + 1
  {
    var k := Serialize(key);
    if k in c.entries {
      assert c.entries[k].handle in c.pending;
    }
  }

  /** After `put`, `get` of any key that normalizes like the put key returns
      the new value, and every other key reads as before. */
  lemma GetAfterPut<V>(c: Cache<V>, key: JsValue, value: V, options: PutOptions, probe: JsValue)
    ensures Get(Put(c, key, value, options), probe)
         == if Serialize(probe) == Serialize(key) then Some(value) else Get(c, probe)
  {
  }

  /** `put` on a new key adds one entry; on an existing key the count stays. */
  lemma PutSize<V>(c: Cache<V>, key: JsValue, value: V, options: PutOptions)
    ensures Size(Put(c, key, value, options)) == Size(c) + (if Serialize(key) in c.entries then 0 else 1)
  {
  }

  /** The TTL is `options.ttl` when truthy, and otherwise the `defaultTtl`
      assigned most recently before the call, not the one of construction. */
  lemma DefaultTtlReadAtPut<V>(c: Cache<V>, ttl: int, key: JsValue, value: V)
    ensures var r := Put(SetDefaultTtl(c, ttl), key, value, NoOptions);
      r.pending[r.entries[Serialize(key)].handle].delay == ttl
  {
  }

  // ---------------------------------------------------------------------
  // remove and get

  /** `remove` of a present key cancels its timer, deletes it, and calls its
      callback once, with the key given to `remove` and the stored data. */
  lemma RemovePresent<V>(c: Cache<V>, key: JsValue)
    requires Serialize(key) in c.entries
    ensures var r := Remove(c, key);
      && var e := c.entries[Serialize(key)];
      && r.entries == c.entries - {Serialize(key)}
      && r.pending == c.pending - {e.handle}
      && r.log == c.log + [Notification(e.handle, e.callback, key, e.data)]
      && Size(r) == Size(c) - 1
  {
  }

  /** The entry is deleted before its callback runs: in the state the
      callback runs in, `get` of the key finds nothing, and `remove` is that
      state plus the one call. */
  lemma CallbackRunsAfterDelete<V>(c: Cache<V>, key: JsValue)
    requires Serialize(key) in c.entries
    ensures var (seen, e) := Detach(c, key);
      && e.Some?
      && Get(seen, key) == None
      && Size(seen) == Size(c) - 1
      && Remove(c, key) == seen.(log := seen.log + [Notification(e.value.handle, e.value.callback, key, e.value.data)])
  {
  }

  /** A second `remove` of the same key, or of any key normalizing like it,
      has no effect. */
  lemma RemoveIdempotent<V>(c: Cache<V>, key: JsValue, again: JsValue)
    requires Serialize(again) == Serialize(key)
    ensures Remove(Remove(c, key), again) == Remove(c, key)
  {
  }

  lemma GetAfterRemove<V>(c: Cache<V>, key: JsValue, probe: JsValue)
    ensures Get(Remove(c, key), probe)
         == if Serialize(probe) == Serialize(key) then None else Get(c, probe)
  {
  }

  // ---------------------------------------------------------------------
  // clear, size and timers

  /** `clear` leaves no pending timer, no entry, and calls no callback. */
  lemma ClearCancelsEverything<V>(c: Cache<V>)
    requires Inv(c)
    ensures Clear(c).pending == map[]
    ensures Clear(c).entries == map[] && Size(Clear(c)) == 0
    ensures Clear(c).log == c.log && Clear(c).nextHandle == c.nextHandle
  {
    forall h | h in c.pending
      ensures h in EntryHandles(c)
    {
      assert c.entries[Serialize(c.pending[h].key)].handle == h;
    }
  }

  lemma {:induction false} DistinctHandlesCount<V>(m: map<string, Entry<V>>)
    requires forall k1, k2 | k1 in m && k2 in m && k1 != k2 :: m[k1].handle != m[k2].handle
    ensures |set k | k in m :: m[k].handle| == |m|
    decreases |m|
  {
    if |m| > 0 {
      var k :| k in m;
      var m' := m - {k};
      DistinctHandlesCount(m');
      var hs := set k' | k' in m :: m[k'].handle;
      var hs' := set k' | k' in m' :: m'[k'].handle;
      forall g | g in hs
        ensures g in hs' + {m[k].handle}
      {
        var k' :| k' in m && m[k'].handle == g;
        if k' != k {
          assert m'[k'].handle == g;
        }
      }
      assert hs == hs' + {m[k].handle};
      assert m[k].handle !in hs';
    }
  }

  /** There is exactly one pending timer per entry: the pending handles are
      the entries' handles, and `size()` is also the number of pending timers. */
  lemma OneTimerPerEntry<V>(c: Cache<V>)
    requires Inv(c)
    ensures c.pending.Keys == EntryHandles(c)
    ensures Size(c) == |c.pending|
  {
    forall h | h in c.pending
      ensures h in EntryHandles(c)
    {
      assert c.entries[Serialize(c.pending[h].key)].handle == h;
    }
    forall k1, k2 | k1 in c.entries && k2 in c.entries && k1 != k2
      ensures c.entries[k1].handle != c.entries[k2].handle
    {
      HandlesDistinct(c, k1, k2);
    }
    DistinctHandlesCount(c.entries);
    assert |c.pending| == |c.pending.Keys|;
  }

  /** A timer firing does exactly what `remove` of the key given to `put`
      does. */
  lemma FireIsRemove<V>(c: Cache<V>, h: Handle)
    requires Inv(c) && h in c.pending
    ensures Fire(c, h) == Remove(c, c.pending[h].key)
  {
    var key := c.pending[h].key;
    var k := Serialize(key);
    assert c.entries[k].handle == h;
    var c1 := c.(pending := Cancel(c.pending, h));
    assert Cancel(c1.pending, h) == Cancel(c.pending, h);
  }

  /** A pending timer's firing calls back its own entry: once, with the
      key given to `put` and the stored data. */
  lemma FireNotifiesOwnEntry<V>(c: Cache<V>, h: Handle)
    requires Inv(c) && h in c.pending
    ensures var t := c.pending[h];
      && var e := c.entries[Serialize(t.key)];
      && e.handle == h
      && Fire(c, h).log == c.log + [Notification(h, e.callback, t.key, e.data)]
      && Size(Fire(c, h)) == Size(c) - 1
  {
    FireIsRemove(c, h);
    RemovePresent(c, c.pending[h].key);
  }

  /** After `remove`, the removed entry's timer does not fire: its callback
      runs for the removal or the expiry, never both. */
  lemma RemoveThenFireSilent<V>(c: Cache<V>, key: JsValue)
    requires Inv(c) && Serialize(key) in c.entries
    ensures var r := Remove(c, key); Fire(r, c.entries[Serialize(key)].handle) == r
  {
  }

  // ---------------------------------------------------------------------
  // Runs of operations

  /** What can happen to a cache: a call of a mutating operation, an
      assignment of `defaultTtl`, or a timer firing. */
  datatype Op<V> =
    | PutOp(key: JsValue, value: V, options: PutOptions)
    | RemoveOp(key: JsValue)
    | ClearOp
    | FireOp(handle: Handle)
    | SetDefaultTtlOp(ttl: int)

  function Step<V>(c: Cache<V>, op: Op<V>): (r: Cache<V>)
  {
    match op
    case PutOp(key, value, options) => Put(c, key, value, options)
    case RemoveOp(key) => Remove(c, key)
    case ClearOp => Clear(c)
    case FireOp(h) => Fire(c, h)
    case SetDefaultTtlOp(ttl) => SetDefaultTtl(c, ttl)
  }

  function Run<V>(c: Cache<V>, ops: seq<Op<V>>): (r: Cache<V>)
    decreases |ops|
  {
    if |ops| == 0 then c else Run(Step(c, ops[0]), ops[1..])
  }

  lemma StepInv<V>(c: Cache<V>, op: Op<V>)
    requires Inv(c)
    ensures Inv(Step(c, op))
  {
    match op
    case PutOp(key, value, options) => PutInv(c, key, value, options);
    case RemoveOp(key) => RemoveInv(c, key);
    case ClearOp => ClearInv(c);
    case FireOp(h) => FireInv(c, h);
    case SetDefaultTtlOp(ttl) =>
  }

  lemma {:induction false} RunInv<V>(c: Cache<V>, ops: seq<Op<V>>)
    requires Inv(c)
    ensures Inv(Run(c, ops))
    decreases |ops|
  {
    if |ops| > 0 {
      StepInv(c, ops[0]);
      RunInv(Step(c, ops[0]), ops[1..]);
    }
  }

  /** What one step may do to the log and the pending timers: append
      calls of entries whose timer was pending, and add fresh handles. */
  ghost predicate FramedBy<V>(c: Cache<V>, r: Cache<V>)
  {
    && |c.log| <= |r.log| && r.log[..|c.log|] == c.log
    && (forall i | |c.log| <= i < |r.log| :: r.log[i].handle in c.pending)
    && (forall g | g in r.pending :: g in c.pending || c.nextHandle <= g)
    && c.nextHandle <= r.nextHandle
  }

  lemma RemoveFrame<V>(c: Cache<V>, key: JsValue)
    requires Inv(c)
    ensures FramedBy(c, Remove(c, key))
  {
    if Serialize(key) in c.entries {
      RemovePresent(c, key);
    }
  }

  /** One step only appends to the callback log, and only calls back entries
      whose timer was pending; it only adds fresh handles to the pending set. */
  lemma StepFrame<V>(c: Cache<V>, op: Op<V>)
    requires Inv(c)
    ensures FramedBy(c, Step(c, op))
  {
    match op
    case PutOp(key, value, options) => PutTimers(c, key, value, options);
    case RemoveOp(key) => RemoveFrame(c, key);
    case ClearOp =>
    case FireOp(h) =>
      if h in c.pending {
        FireIsRemove(c, h);
        RemoveFrame(c, c.pending[h].key);
      }
    case SetDefaultTtlOp(ttl) =>
  }

  /** Over any run, the callback log only grows at its end. */
  lemma {:induction false} RunExtendsLog<V>(c: Cache<V>, ops: seq<Op<V>>)
    requires Inv(c)
    ensures var r := Run(c, ops); |c.log| <= |r.log| && r.log[..|c.log|] == c.log
    decreases |ops|
  {
    if |ops| > 0 {
      var c1 := Step(c, ops[0]);
      StepFrame(c, ops[0]);
      StepInv(c, ops[0]);
      RunExtendsLog(c1, ops[1..]);
      var r := Run(c1, ops[1..]);
      assert r.log[..|c.log|] == r.log[..|c1.log|][..|c.log|];
    }
  }

  /** A retired handle stays retired, and its entry's callback is never
      called again, whatever operations and timer firings follow. */
  lemma {:induction false} RetiredStaysSilent<V>(c: Cache<V>, ops: seq<Op<V>>, h: Handle)
    requires Inv(c) && Retired(c, h)
    ensures var r := Run(c, ops);
      && Retired(r, h)
      && |c.log| <= |r.log| && r.log[..|c.log|] == c.log
      && forall i | |c.log| <= i < |r.log| :: r.log[i].handle != h
    decreases |ops|
  {
    if |ops| > 0 {
      var c1 := Step(c, ops[0]);
      StepFrame(c, ops[0]);
      StepInv(c, ops[0]);
      RetiredStaysSilent(c1, ops[1..], h);
      var r := Run(c, ops);
      assert r == Run(c1, ops[1..]);
      assert r.log[..|c1.log|] == c1.log;
      forall i | |c.log| <= i < |r.log|
        ensures r.log[i].handle != h
      {
        if i < |c1.log| {
          assert r.log[i] == c1.log[i];
        }
      }
      assert r.log[..|c.log|] == c1.log[..|c.log|];
    }
  }

  /** The callback of an entry superseded by `put` is never called, whatever
      follows. */
  lemma SupersededNeverNotified<V>(c: Cache<V>, key: JsValue, value: V, options: PutOptions, ops: seq<Op<V>>)
    requires Inv(c) && Serialize(key) in c.entries
    ensures var superseded := c.entries[Serialize(key)].handle;
      var r := Run(Put(c, key, value, options), ops);
      forall i | 0 <= i < |r.log| :: r.log[i].handle != superseded
  {
    var superseded := c.entries[Serialize(key)].handle;
    var p := Put(c, key, value, options);
    PutTimers(c, key, value, options);
    PutInv(c, key, value, options);
    RetiredStaysSilent(p, ops, superseded);
    var r := Run(p, ops);
    forall i | 0 <= i < |r.log|
      ensures r.log[i].handle != superseded
    {
      if i < |p.log| {
        assert r.log[i] == p.log[i];
      }
    }
  }

  /** After `clear`, no callback of any entry that was in the cache is ever
      called, and `clear` itself calls none. */
  lemma ClearSilencesEveryEntry<V>(c: Cache<V>, ops: seq<Op<V>>)
    requires Inv(c)
    ensures var r := Run(Clear(c), ops);
      && |c.log| <= |r.log| && r.log[..|c.log|] == c.log
      && forall k, i | k in c.entries && |c.log| <= i < |r.log| :: r.log[i].handle != c.entries[k].handle
  {
    var cl := Clear(c);
    ClearCancelsEverything(c);
    ClearInv(c);
    var r := Run(cl, ops);
    RunExtendsLog(cl, ops);
    forall k, i | k in c.entries && |c.log| <= i < |r.log|
      ensures r.log[i].handle != c.entries[k].handle
    {
      RetiredStaysSilent(cl, ops, c.entries[k].handle);
    }
  }

  /** From a new cache, whatever happens, each entry's callback is called at
      most once and there is one pending timer per entry. */
  lemma CallbacksAtMostOnce<V>(defaultTtl: Option<int>, ops: seq<Op<V>>)
    ensures var r := Run(Create<V>(defaultTtl), ops);
      && NotifiedAtMostOnce(r)
      && Size(r) == |r.pending|
  {
    CreateInv<V>(defaultTtl);
    RunInv(Create<V>(defaultTtl), ops);
    OneTimerPerEntry(Run(Create<V>(defaultTtl), ops));
  }
}
