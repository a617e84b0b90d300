/** The TTL cache of cache.js as a state machine. A state holds the entry
    map keyed by normalized key, the one-shot timers still pending (by
    handle), the next handle the timer facility will hand out, the calls of
    user callbacks made so far, and the instance's `defaultTtl`. Each public
    operation, and the firing of a timer, is a pure transition. */
module TtlCache {
  import opened Wrappers
  import opened Json
  import opened Keys

  /** A timer handle as returned by `setTimeout`; handles are never reused. */
  type Handle = nat

  /** The function an entry calls back when it is removed: the no-op `put`
      installs when no callback is given, or a function of the caller's,
      told apart by an identity. */
  datatype Callback = NoOp | Fn(id: nat)

  /** The `options` argument of `put`. An absent `options` is `NoOptions`. */
  datatype PutOptions = PutOptions(ttl: Option<int>, callback: Option<nat>)

  const NoOptions: PutOptions := PutOptions(None, None)

  /** A pending one-shot timer: when it fires it calls `remove` with the key
      that was given to `put`; `delay` is the TTL it was scheduled with, in
      milliseconds. */
  datatype Timer = Timer(key: JsValue, delay: int)

  /** A stored entry: `{ handle, data, callback }`. */
  datatype Entry<V> = Entry(handle: Handle, data: V, callback: Callback)

  /** One call of an entry's callback: which entry (by its timer handle),
      which callback, and the `(key, data)` arguments it received. */
  datatype Notification<V> = Notification(handle: Handle, callback: Callback, key: JsValue, data: V)

  datatype Cache<V> = Cache(
    defaultTtl: int,
    entries: map<string, Entry<V>>,
    pending: map<Handle, Timer>,
    nextHandle: Handle,
    log: seq<Notification<V>>)

  /** The default TTL when the constructor is given none: one minute. */
  const FallbackTtl: int := 60 * 1000

  /** JavaScript truthiness of an optional number: absent and 0 are falsy. */
  predicate Truthy(n: Option<int>)
  {
    n.Some? && n.value != 0
  }

  /** `new Cache(options)`, where `defaultTtl` is `options.defaultTtl`
      (`None` when `options` or the property is absent). */
  function Create<V>(defaultTtl: Option<int>): (c: Cache<V>)
    ensures Truthy(defaultTtl) ==> c.defaultTtl == defaultTtl.value
    ensures !Truthy(defaultTtl) ==> c.defaultTtl == 60000
    ensures Truthy(Some(c.defaultTtl))
    ensures Size(c) == 0 && c.pending == map[] && c.log == []
  {
    Cache(if Truthy(defaultTtl) then defaultTtl.value else FallbackTtl, map[], map[], 0, [])
  }

  /** Assigning the public `defaultTtl` field. */
  function SetDefaultTtl<V>(c: Cache<V>, ttl: int): (r: Cache<V>)
    ensures r.defaultTtl == ttl
    ensures r.entries == c.entries && r.pending == c.pending && r.log == c.log
  {
    c.(defaultTtl := ttl)
  }

  /** The TTL `put` schedules with: `options.ttl` when truthy, otherwise the
      `defaultTtl` of the moment of the call. */
  function EffectiveTtl(options: PutOptions, defaultTtl: int): (r: int)
    ensures Truthy(options.ttl) ==> r == options.ttl.value
    ensures options.ttl == None || options.ttl == Some(0) ==> r == defaultTtl
    ensures r == 0 ==> defaultTtl == 0
  {
    if Truthy(options.ttl) then options.ttl.value else defaultTtl
  }

  /** The callback `put` stores: the caller's when given, otherwise a no-op. */
  function EffectiveCallback(options: PutOptions): (r: Callback)
    ensures r.Fn? <==> options.callback.Some?
    ensures r.Fn? ==> r.id == options.callback.value
  {
    match options.callback
    case Some(id) => Fn(id)
    case None => NoOp
  }

  /** `clearTimeout(handle)`: the timer will not fire. Cancelling a handle that
      already fired or was cancelled changes nothing. */
  function Cancel(pending: map<Handle, Timer>, h: Handle): (r: map<Handle, Timer>)
    ensures h !in r
    ensures forall g | g in pending && g != h :: g in r && r[g] == pending[g]
    ensures r.Keys <= pending.Keys
  {
    pending - {h}
  }

  /** `setTimeout(() => remove(key), delay)`: a fresh handle becomes pending. */
  function Schedule<V>(c: Cache<V>, key: JsValue, delay: int): (r: (Cache<V>, Handle))
    ensures r.1 in r.0.pending && r.0.pending[r.1] == Timer(key, delay)
    ensures forall g | g in c.pending && g != r.1 :: g in r.0.pending && r.0.pending[g] == c.pending[g]
    ensures r.0.pending.Keys == c.pending.Keys + {r.1}
    ensures c.nextHandle <= r.1 < r.0.nextHandle
    ensures r.0.entries == c.entries && r.0.log == c.log && r.0.defaultTtl == c.defaultTtl
  {
    var h := c.nextHandle;
    (c.(pending := c.pending[h := Timer(key, delay)], nextHandle := h + 1), h)
  }

  /** `put(key, value, options)`: cancel the timer of the entry the key
      normalizes to, if any, then schedule a new timer for the original key
      and store the new entry in place of the old one. */
  function Put<V>(c: Cache<V>, key: JsValue, value: V, options: PutOptions): (r: Cache<V>)
    ensures Get(r, key) == Some(value)
    ensures r.entries.Keys == c.entries.Keys + {Serialize(key)}
    ensures forall k | k in c.entries && k != Serialize(key) :: k in r.entries && r.entries[k] == c.entries[k]
    ensures r.entries[Serialize(key)].callback == EffectiveCallback(options)
    ensures r.log == c.log && r.defaultTtl == c.defaultTtl
  {
    var k := Serialize(key);
    var cancelled := if k in c.entries then c.(pending := Cancel(c.pending, c.entries[k].handle)) else c;
    var (scheduled, h) := Schedule(cancelled, key, EffectiveTtl(options, c.defaultTtl));
    scheduled.(entries := scheduled.entries[k := Entry(h, value, EffectiveCallback(options))])
  }

  /** `get(key)`: the data of the entry the key normalizes to, `None` when
      there is none. */
  function Get<V>(c: Cache<V>, key: JsValue): (r: Option<V>)
    ensures r.Some? <==> Serialize(key) in c.entries
    ensures r.Some? ==> r.value == c.entries[Serialize(key)].data
  {
    var k := Serialize(key);
    if k in c.entries then Some(c.entries[k].data) else None
  }

  /** The first half of `remove(key)`: cancel the entry's timer and delete the
      entry. The state it returns is the one the callback runs in; the entry
      it returns is the one that was deleted. */
  function Detach<V>(c: Cache<V>, key: JsValue): (r: (Cache<V>, Option<Entry<V>>))
    ensures Serialize(key) !in r.0.entries
    ensures r.1.Some? <==> Serialize(key) in c.entries
    ensures r.1.Some? ==> r.1.value == c.entries[Serialize(key)] && r.1.value.handle !in r.0.pending
    ensures r.0.log == c.log
  {
    var k := Serialize(key);
    if k !in c.entries then (c, None)
    else
      var e := c.entries[k];
      (c.(pending := Cancel(c.pending, e.handle), entries := c.entries - {k}), Some(e))
  }

  /** `remove(key)`: when the key has an entry, detach it and then call its
      callback with the key given to `remove` and the stored data; otherwise
      nothing happens. */
  function Remove<V>(c: Cache<V>, key: JsValue): (r: Cache<V>)
    ensures Get(r, key) == None
    ensures Serialize(key) !in c.entries ==> r == c
    ensures Serialize(key) in c.entries ==>
      var e := c.entries[Serialize(key)];
      r.log == c.log + [Notification(e.handle, e.callback, key, e.data)]
  {
    match Detach(c, key)
    case (detached, None) => detached
    case (detached, Some(e)) =>
      detached.(log := detached.log + [Notification(e.handle, e.callback, key, e.data)])
  }

  /** The handles of the timers belonging to entries. */
  function EntryHandles<V>(c: Cache<V>): (hs: set<Handle>)
  {
    set k | k in c.entries :: c.entries[k].handle
  }

  /** `clear()`: cancel the timer of every entry and empty the map; no
      callback is called. */
  function Clear<V>(c: Cache<V>): (r: Cache<V>)
    ensures Size(r) == 0
    ensures forall k | k in c.entries :: c.entries[k].handle !in r.pending
    ensures r.log == c.log && r.defaultTtl == c.defaultTtl
  {
    var pending := map h | h in c.pending && h !in EntryHandles(c) :: c.pending[h];
    c.(entries := map[], pending := pending)
  }

  /** `size()`: the number of entries. */
  function Size<V>(c: Cache<V>): (n: nat)
    ensures n == 0 <==> c.entries == map[]
    ensures forall key | Get(c, key).Some? :: n > 0
  {
    |c.entries|
  }

  /** The host's event loop runs the timer with handle `h`. A timer that is
      no longer pending (it fired already or was cancelled) never runs; one
      that is pending stops being pending and calls `remove` with the key
      given to the `put` that scheduled it. */
  function Fire<V>(c: Cache<V>, h: Handle): (r: Cache<V>)
    ensures h !in r.pending
    ensures h !in c.pending ==> r == c
    ensures h in c.pending ==> Get(r, c.pending[h].key) == None
  {
    if h !in c.pending then c
    else
      var timer := c.pending[h];
      Remove(c.(pending := Cancel(c.pending, h)), timer.key)
  }
}
