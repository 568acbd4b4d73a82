/** The `useFetch` hook (ui/src/hooks/useFetch.ts): a per-key result cache shared by every
    mount, a loading flag, the last data and the last error, and a `refetch` that does nothing
    while a fetch is in flight. React renders and the promise of `fetchFn` are replaced by
    events: a refetch, and the in-flight call resolving or rejecting. */
module CachedFetch {
  import opened Common
  import opened Api

  /** The message used when something that is not an `Error` is thrown. */
  const UnknownError := "Unknown error"

  /** What a rejected `fetchFn` threw: an `Error` or some other value. */
  datatype Thrown = ThrownError(error: JsError) | ThrownValue

  /** The error the hook records for a thrown value. */
  function AsError(t: Thrown): (e: JsError)
    ensures t.ThrownError? ==> e == t.error
    ensures t.ThrownValue? ==> e.message == UnknownError && e.kind == PlainError
  {
    match t
    case ThrownError(e) => e
    case ThrownValue => JsError(PlainError, UnknownError)
  }

  /** `cacheStore`: module-level, shared by every mount of the hook. The key is the
      `JSON.stringify` text of the fetch key. */
  type Cache<T> = map<string, T>

  /** One mounted hook: its key, `loadingRef.current`, and the `isLoading`, `data` and `error`
      state. */
  datatype Hook<T> = Hook(key: string, inFlight: bool, isLoading: bool, data: Option<T>, error: Option<JsError>)

  /** A fresh mount: nothing in flight, no error, and the data the cache holds for the key. */
  function Mount<T>(cache: Cache<T>, key: string): (h: Hook<T>)
    ensures h.key == key && !h.inFlight && !h.isLoading && h.error.None?
    ensures h.data.Some? <==> key in cache
    ensures h.data.Some? ==> h.data.value == cache[key]
  {
    Hook(key, false, false, if key in cache then Some(cache[key]) else None, None)
  }

  /** The effect fetches unless `enabled` is exactly `false`; an absent option fetches. */
  predicate AutoFetch(enabled: Option<bool>) {
    enabled != Some(false)
  }

  /** The outcome of calling `fetchData`: the hook afterwards, and whether `fetchFn` ran. */
  datatype Started<T> = Started(hook: Hook<T>, invoked: bool)

  /** The synchronous part of `fetchData`: while a call is in flight it returns at once;
      otherwise it marks the hook loading and calls `fetchFn`. */
  function Start<T>(h: Hook<T>): (s: Started<T>)
    ensures h.inFlight ==> s == Started(h, false)
    ensures !h.inFlight ==> s.invoked && s.hook == h.(inFlight := true, isLoading := true)
  {
    if h.inFlight then Started(h, false)
    else Started(h.(inFlight := true, isLoading := true), true)
  }

  /** `fetchFn` resolved with `v`: the data and the cache entry for the key both become `v`;
      an earlier error is left in place. */
  function Succeed<T>(cache: Cache<T>, h: Hook<T>, v: T): (out: (Cache<T>, Hook<T>))
    requires h.inFlight
    ensures out.1 == h.(inFlight := false, isLoading := false, data := Some(v))
    ensures h.key in out.0 && out.0[h.key] == v
    ensures forall k :: k != h.key ==> (k in out.0 <==> k in cache)
    ensures forall k :: k != h.key && k in cache ==> out.0[k] == cache[k]
  {
    (cache[h.key := v], h.(inFlight := false, isLoading := false, data := Some(v)))
  }

  /** `fetchFn` rejected: the error is recorded, the data cleared and the cache untouched. */
  function Fail<T>(h: Hook<T>, thrown: Thrown): (h': Hook<T>)
    requires h.inFlight
    ensures !h'.inFlight && !h'.isLoading && h'.key == h.key
    ensures h'.data.None? && h'.error == Some(AsError(thrown))
  {
    h.(inFlight := false, isLoading := false, data := None, error := Some(AsError(thrown)))
  }

  /** What can happen to a mounted hook. */
  datatype Event<T> = Refetch | Resolve(value: T) | Reject(thrown: Thrown)

  /** The cache, the hook, and how many `fetchFn` calls were made and have settled. */
  datatype Trace<T> = Trace(cache: Cache<T>, hook: Hook<T>, invoked: nat, completed: nat)

  /** One event. A settlement with nothing in flight cannot happen and changes nothing. */
  function Apply<T>(t: Trace<T>, e: Event<T>): (t': Trace<T>)
    ensures t'.hook.key == t.hook.key
    ensures t.hook.inFlight && !e.Refetch? ==> !t'.hook.inFlight && t'.completed == t.completed + 1
    ensures e.Refetch? ==> t'.hook.inFlight && t'.completed == t.completed && t'.cache == t.cache
  {
    match e
    case Refetch =>
      var s := Start(t.hook);
      Trace(t.cache, s.hook, t.invoked + (if s.invoked then 1 else 0), t.completed)
    case Resolve(v) =>
      if t.hook.inFlight then
        var (cache, h) := Succeed(t.cache, t.hook, v);
        Trace(cache, h, t.invoked, t.completed + 1)
      else t
    case Reject(x) =>
      if t.hook.inFlight then Trace(t.cache, Fail(t.hook, x), t.invoked, t.completed + 1)
      else t
  }

  /** A sequence of events, oldest first. */
  function Run<T>(t: Trace<T>, events: seq<Event<T>>): Trace<T>
    decreases |events|
  {
    if |events| == 0 then t else Apply(Run(t, events[..|events| - 1]), events[|events| - 1])
  }

  /** Mounting, and the effect's first fetch unless it is disabled. */
  function MountAndFetch<T>(cache: Cache<T>, key: string, enabled: Option<bool>): (t: Trace<T>)
    ensures t.cache == cache && t.completed == 0
    ensures t.hook.inFlight <==> AutoFetch(enabled)
    ensures t.invoked == (if AutoFetch(enabled) then 1 else 0)
    ensures t.hook.data == Mount(cache, key).data && t.hook.error.None?
  {
    var t := Trace(cache, Mount(cache, key), 0, 0);
    if AutoFetch(enabled) then Apply(t, Refetch) else t
  }

  /** The bookkeeping the hook keeps: at most one call in flight, `isLoading` mirrors the
      ref, and every call made has settled except the one in flight. */
  predicate Consistent<T>(t: Trace<T>) {
    && t.hook.isLoading == t.hook.inFlight
    && t.invoked == t.completed + (if t.hook.inFlight then 1 else 0)
  }

  lemma MountAndFetchIsConsistent<T>(cache: Cache<T>, key: string, enabled: Option<bool>)
    ensures Consistent(MountAndFetch(cache, key, enabled))
  {
  }

  /** Every event keeps the bookkeeping. */
  lemma ApplyKeepsConsistent<T>(t: Trace<T>, e: Event<T>)
    requires Consistent(t)
    ensures Consistent(Apply(t, e))
  {
  }

  /** Whatever happens, no second `fetchFn` call starts while one is in flight. */
  lemma {:induction false} RunKeepsConsistent<T>(t: Trace<T>, events: seq<Event<T>>)
    requires Consistent(t)
    ensures Consistent(Run(t, events))
    ensures Run(t, events).invoked <= Run(t, events).completed + 1
    decreases |events|
  {
    if |events| > 0 {
      RunKeepsConsistent(t, events[..|events| - 1]);
      ApplyKeepsConsistent(Run(t, events[..|events| - 1]), events[|events| - 1]);
    }
  }

  /** A second refetch while the first is in flight calls `fetchFn` once, not twice. */
  lemma DoubleRefetchInvokesOnce<T>(t: Trace<T>)
    requires !t.hook.inFlight
    ensures Run(t, [Refetch, Refetch]).invoked == t.invoked + 1
  {
    var es: seq<Event<T>> := [Refetch, Refetch];
    assert es[..1] == [Refetch];
    assert es[..1][..0] == [];
  }

  /** A mounted hook keeps its key. */
  lemma {:induction false} RunKeepsKey<T>(t: Trace<T>, events: seq<Event<T>>)
    ensures Run(t, events).hook.key == t.hook.key
    decreases |events|
  {
    if |events| > 0 {
      RunKeepsKey(t, events[..|events| - 1]);
    }
  }

  /** The hook only ever writes its own key: other entries of the shared cache are kept. */
  lemma {:induction false} RunKeepsOtherKeys<T>(t: Trace<T>, events: seq<Event<T>>, k: string)
    requires k != t.hook.key
    ensures k in Run(t, events).cache <==> k in t.cache
    ensures k in t.cache ==> Run(t, events).cache[k] == t.cache[k]
    decreases |events|
  {
    if |events| > 0 {
      RunKeepsKey(t, events[..|events| - 1]);
      RunKeepsOtherKeys(t, events[..|events| - 1], k);
    }
  }

  /** Once cached, a key stays cached: a rejection does not evict it. */
  lemma {:induction false} RunKeepsKeyCached<T>(t: Trace<T>, events: seq<Event<T>>)
    requires t.hook.key in t.cache
    ensures t.hook.key in Run(t, events).cache
    decreases |events|
  {
    if |events| > 0 {
      RunKeepsKey(t, events[..|events| - 1]);
      RunKeepsKeyCached(t, events[..|events| - 1]);
    }
  }

  /** An error, once recorded, is never cleared: a later success sets the data but leaves the
      error in place. */
  lemma {:induction false} ErrorIsSticky<T>(t: Trace<T>, events: seq<Event<T>>)
    requires t.hook.error.Some?
    ensures Run(t, events).hook.error.Some?
    decreases |events|
  {
    if |events| > 0 {
      ErrorIsSticky(t, events[..|events| - 1]);
    }
  }

  /** After a success, a fresh mount under the same key starts from the value just fetched. */
  lemma RemountSeesLastSuccess<T>(t: Trace<T>, v: T)
    requires t.hook.inFlight
    ensures Mount(Apply(t, Resolve(v)).cache, t.hook.key).data == Some(v)
    ensures Apply(t, Resolve(v)).hook.data == Some(v)
  {
  }

  /** After a rejection the hook shows no data even when the cache still has some. */
  lemma RejectHidesCachedData<T>(t: Trace<T>, x: Thrown)
    requires t.hook.inFlight && t.hook.key in t.cache
    ensures Apply(t, Reject(x)).hook.data.None?
    ensures Apply(t, Reject(x)).cache == t.cache
    ensures Mount(Apply(t, Reject(x)).cache, t.hook.key).data == Some(t.cache[t.hook.key])
  {
  }
}
