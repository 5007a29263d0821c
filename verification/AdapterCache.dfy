/** The engine's bounded cache of loaded models, least recently used out first. */
module AdapterCache {
  import opened Prelude

  /** Base model plus adapter, and a loaded model instance: only their identity matters. */
  type Key = nat
  type Model = nat

  datatype Entry = Entry(key: Key, model: Model)

  /** One request for a model and how it went. */
  datatype Use = Hit(key: Key, model: Model) | Load(key: Key, model: Model) | LoadFailed(key: Key)

  type Log = seq<Use>

  // ---------- Ordered maps as lists, oldest first ----------

  function Find(es: seq<Entry>, k: Key): Option<Model> {
    if es == [] then None
    else if Last(es).key == k then Some(Last(es).model)
    else Find(Front(es), k)
  }

  function Without(es: seq<Entry>, k: Key): seq<Entry> {
    if es == [] then []
    else if Last(es).key == k then Without(Front(es), k)
    else Without(Front(es), k) + [Last(es)]
  }

  lemma {:induction false} FindWithout(es: seq<Entry>, k: Key, other: Key)
    ensures Find(Without(es, k), other) == if k == other then None else Find(es, other)
  {
    if es != [] {
      FindWithout(Front(es), k, other);
    }
  }

  lemma {:induction false} WithoutAppend(a: seq<Entry>, b: seq<Entry>, k: Key)
    ensures Without(a + b, k) == Without(a, k) + Without(b, k)
  {
    if b == [] {
      assert a + b == a;
    } else {
      WithoutAppend(a, Front(b), k);
      assert Front(a + b) == a + Front(b);
    }
  }

  lemma {:induction false} WithoutAbsent(es: seq<Entry>, k: Key)
    requires Find(es, k) == None
    ensures Without(es, k) == es
  {
    if es != [] {
      WithoutAbsent(Front(es), k);
      FrontLast(es);
    }
  }

  lemma {:induction false} FindAppend(a: seq<Entry>, b: seq<Entry>, k: Key)
    ensures Find(a + b, k) == if Find(b, k).Some? then Find(b, k) else Find(a, k)
  {
    if b == [] {
      assert a + b == a;
    } else {
      FindAppend(a, Front(b), k);
      assert Front(a + b) == a + Front(b);
    }
  }

  // ---------- The reference: distinct keys in order of last use ----------

  /** Every key successfully used, the most recent last, with the model it gave. */
  function Recent(log: Log): seq<Entry> {
    if log == [] then []
    else if Last(log).LoadFailed? then Recent(Front(log))
    else Without(Recent(Front(log)), Last(log).key) + [Entry(Last(log).key, Last(log).model)]
  }

  /** Index of the last successful use of k, or -1. */
  function LastUse(log: Log, k: Key): (at: int)
    ensures -1 <= at < |log|
    ensures at >= 0 ==> !log[at].LoadFailed? && log[at].key == k
    ensures forall i :: at < i < |log| ==> log[i].LoadFailed? || log[i].key != k
  {
    if log == [] then -1
    else if !Last(log).LoadFailed? && Last(log).key == k then |log| - 1
    else LastUse(Front(log), k)
  }

  function LastLoaded(log: Log, k: Key): Option<Model> {
    if log == [] then None
    else if Last(log).Load? && Last(log).key == k then Some(Last(log).model)
    else LastLoaded(Front(log), k)
  }

  function Loads(log: Log): nat {
    if log == [] then 0 else Loads(Front(log)) + if Last(log).Load? then 1 else 0
  }

  predicate Failing(log: Log) {
    log != [] && (Last(log).LoadFailed? || Failing(Front(log)))
  }

  /** Every hit gave the model loaded last for its key. */
  predicate Truthful(log: Log) {
    log != [] ==>
      Truthful(Front(log)) && (Last(log).Hit? ==> LastLoaded(Front(log), Last(log).key) == Some(Last(log).model))
  }

  /** Keys in strictly increasing order of last use, all before `bound`. */
  predicate Ordered(es: seq<Entry>, log: Log, bound: int) {
    es != [] ==>
      0 <= LastUse(log, Last(es).key) < bound && Ordered(Front(es), log, LastUse(log, Last(es).key))
  }

  lemma {:induction false} OrderedLater(es: seq<Entry>, log: Log, bound: int, later: int)
    requires Ordered(es, log, bound) && bound <= later
    ensures Ordered(es, log, later)
  {
  }

  lemma UseSnoc(log: Log, u: Use, k: Key)
    ensures LastUse(log + [u], k) == if !u.LoadFailed? && u.key == k then |log| else LastUse(log, k)
  {
    assert Front(log + [u]) == log;
  }

  lemma {:induction false} OrderedWithout(es: seq<Entry>, log: Log, u: Use, bound: int)
    requires Ordered(es, log, bound)
    ensures u.LoadFailed? ==> Ordered(es, log + [u], bound)
    ensures !u.LoadFailed? ==> Ordered(Without(es, u.key), log + [u], bound)
  {
    if es != [] {
      var at := LastUse(log, Last(es).key);
      UseSnoc(log, u, Last(es).key);
      OrderedWithout(Front(es), log, u, at);
      if !u.LoadFailed? && Last(es).key == u.key {
        OrderedLater(Without(Front(es), u.key), log + [u], at, bound);
      }
    }
  }

  /** The reference list is ordered by last use. */
  lemma {:induction false} RecentOrdered(log: Log)
    ensures Ordered(Recent(log), log, |log|)
  {
    if log != [] {
      var front, u := Front(log), Last(log);
      assert log == front + [u];
      RecentOrdered(front);
      OrderedWithout(Recent(front), front, u, |front|);
      UseSnoc(front, u, u.key);
      if u.LoadFailed? {
        OrderedLater(Recent(front), log, |front|, |log|);
      }
    }
  }

  /** It holds exactly the keys ever used, each with the model of its last use. */
  lemma {:induction false} RecentComplete(log: Log, k: Key)
    ensures Find(Recent(log), k) == if LastUse(log, k) < 0 then None else Some(log[LastUse(log, k)].model)
  {
    if log != [] {
      var front, u := Front(log), Last(log);
      assert log == front + [u];
      UseSnoc(front, u, k);
      RecentComplete(front, k);
      if !u.LoadFailed? {
        FindWithout(Recent(front), u.key, k);
        FindAppend(Without(Recent(front), u.key), [Entry(u.key, u.model)], k);
        assert Front([Entry(u.key, u.model)]) == [];
      }
    }
  }

  /** When hits are truthful, that model is the one loaded last. */
  lemma {:induction false} RecentIsLoaded(log: Log, k: Key)
    requires Truthful(log)
    ensures Find(Recent(log), k).Some? ==> LastLoaded(log, k) == Find(Recent(log), k)
  {
    if log != [] {
      var front, u := Front(log), Last(log);
      RecentIsLoaded(front, k);
      if !u.LoadFailed? {
        FindWithout(Recent(front), u.key, k);
        FindAppend(Without(Recent(front), u.key), [Entry(u.key, u.model)], k);
        assert Front([Entry(u.key, u.model)]) == [];
      }
    }
  }

  lemma {:induction false} OrderedDistinct(es: seq<Entry>, log: Log, bound: int, d: nat, k: Key)
    requires Ordered(es, log, bound) && d <= |es|
    requires Find(es[d..], k).Some?
    ensures LastUse(log, k) < bound && Find(es[..d], k) == None
  {
    if Last(es).key == k {
      OrderedAbsent(Front(es), log, LastUse(log, k), k);
      assert Front(es)[..d] == es[..d];
      FindPrefix(Front(es), d, k);
    } else {
      assert Front(es[d..]) == Front(es)[d..];
      OrderedDistinct(Front(es), log, LastUse(log, Last(es).key), d, k);
      assert Front(es)[..d] == es[..d];
    }
  }

  lemma {:induction false} OrderedAbsent(es: seq<Entry>, log: Log, bound: int, k: Key)
    requires Ordered(es, log, bound) && LastUse(log, k) >= bound
    ensures Find(es, k) == None
  {
    if es != [] {
      OrderedAbsent(Front(es), log, LastUse(log, Last(es).key), k);
    }
  }

  lemma {:induction false} FindPrefix(es: seq<Entry>, d: nat, k: Key)
    requires d <= |es| && Find(es, k) == None
    ensures Find(es[..d], k) == None
  {
    if d < |es| {
      FindPrefix(Front(es), d, k);
      assert Front(es)[..d] == es[..d];
    } else {
      assert es[..d] == es;
    }
  }

  // ---------- The cache holds a suffix of the reference ----------

  ghost predicate Tail(es: seq<Entry>, all: seq<Entry>) {
    |es| <= |all| && es == all[|all| - |es|..]
  }

  /** Removing k and putting it last does to a tail what a use does to the reference. */
  lemma TailUse(es: seq<Entry>, log: Log, u: Use)
    requires Tail(es, Recent(log)) && !u.LoadFailed?
    ensures Tail(Without(es, u.key) + [Entry(u.key, u.model)], Recent(log + [u]))
    ensures Find(es, u.key).Some? ==> |Recent(log + [u])| == |Recent(log)| && |Without(es, u.key)| == |es| - 1
  {
    var all, e := Recent(log), Entry(u.key, u.model);
    var d := |all| - |es|;
    assert all == all[..d] + es;
    WithoutAppend(all[..d], es, u.key);
    assert Front(log + [u]) == log;
    if Find(es, u.key).Some? {
      RecentOrdered(log);
      OrderedDistinct(all, log, |log|, d, u.key);
      WithoutAbsent(all[..d], u.key);
      FindAppend(all[..d], es, u.key);
      WithoutOne(all, log, |log|, u.key);
    }
  }

  lemma {:induction false} WithoutOne(es: seq<Entry>, log: Log, bound: int, k: Key)
    requires Ordered(es, log, bound) && Find(es, k).Some?
    ensures |Without(es, k)| == |es| - 1
  {
    if Last(es).key == k {
      OrderedAbsent(Front(es), log, LastUse(log, k), k);
      WithoutAbsent(Front(es), k);
    } else {
      WithoutOne(Front(es), log, LastUse(log, Last(es).key), k);
    }
  }

  // ---------- What every request keeps ----------

  /**
    The cached models are the most recently used ones with their latest loads,
    loads minus evictions is their number, and no room is wasted unless a load failed.
  */
  ghost predicate Faithful(size: nat, models: seq<Entry>, evictions: nat, log: Log) {
    && 1 <= size && |models| <= size
    && Tail(models, Recent(log)) && Truthful(log)
    && evictions + |models| == Loads(log)
    && (!Failing(log) ==> |models| == Min(size, |Recent(log)|))
  }

  lemma TailFinds(es: seq<Entry>, log: Log, k: Key)
    requires Tail(es, Recent(log)) && Truthful(log) && Find(es, k).Some?
    ensures LastLoaded(log, k) == Find(es, k)
  {
    var all := Recent(log);
    var d := |all| - |es|;
    assert all == all[..d] + es;
    FindAppend(all[..d], es, k);
    RecentIsLoaded(log, k);
  }

  lemma HitKeeps(size: nat, models: seq<Entry>, evictions: nat, log: Log, k: Key)
    requires Faithful(size, models, evictions, log) && Find(models, k).Some?
    ensures var m := Find(models, k).value;
            && LastLoaded(log, k) == Some(m)
            && Faithful(size, Without(models, k) + [Entry(k, m)], evictions, log + [Hit(k, m)])
  {
    var u := Hit(k, Find(models, k).value);
    TailFinds(models, log, k);
    TailUse(models, log, u);
    assert Front(log + [u]) == log;
  }

  lemma RoomKeeps(size: nat, models: seq<Entry>, evictions: nat, log: Log, n: nat, k: Key)
    requires Faithful(size, models, evictions, log) && Find(models, k) == None
    requires n == if |models| == size then 1 else 0
    ensures Tail(models[n..], Recent(log)) && Find(models[n..], k) == None
    ensures Faithful(size, models[n..], evictions + n, log + [LoadFailed(k)])
  {
    assert models == models[..n] + models[n..];
    FindAppend(models[..n], models[n..], k);
    assert Front(log + [LoadFailed(k)]) == log;
  }

  lemma RecentGrows(log: Log, u: Use)
    requires !u.LoadFailed?
    ensures |Recent(log + [u])| == if Find(Recent(log), u.key).Some? then |Recent(log)| else |Recent(log)| + 1
  {
    assert Front(log + [u]) == log;
    if Find(Recent(log), u.key).Some? {
      RecentOrdered(log);
      WithoutOne(Recent(log), log, |log|, u.key);
    } else {
      WithoutAbsent(Recent(log), u.key);
    }
  }

  lemma LoadKeeps(size: nat, models: seq<Entry>, evictions: nat, log: Log, n: nat, k: Key, m: Model)
    requires Faithful(size, models, evictions, log) && Find(models, k) == None
    requires n == if |models| == size then 1 else 0
    ensures Faithful(size, models[n..] + [Entry(k, m)], evictions + n, log + [Load(k, m)])
  {
    var u := Load(k, m);
    RoomKeeps(size, models, evictions, log, n, k);
    WithoutAbsent(models[n..], k);
    TailUse(models[n..], log, u);
    RecentGrows(log, u);
    assert Front(log + [u]) == log;
  }

  // ---------- The engine ----------

  class Engine {
    const cacheSize: nat
    var models: seq<Entry>
    var evictions: nat
    ghost var log: Log

    ghost predicate Valid()
      reads this
    {
      Faithful(cacheSize, models, evictions, log)
    }

    constructor (size: nat)
      requires 1 <= size
      ensures Valid() && cacheSize == size && models == [] && evictions == 0 && log == []
    {
      cacheSize, models, evictions, log := size, [], 0, [];
    }

    method EvictOldest()
      requires models != []
      modifies this`models, this`evictions
      ensures models == old(models)[1..] && evictions == old(evictions) + 1
    {
      models, evictions := models[1..], evictions + 1;
    }

    /** `_model_for_adapter`, given what loading the model would yield (None when it fails). */
    method ModelForAdapter(k: Key, loading: Option<Model>) returns (model: Option<Model>)
      requires Valid()
      modifies this
      ensures Valid()
      ensures var cached := Find(old(models), k);
              if cached.Some? then
                && model == cached && log == old(log) + [Hit(k, cached.value)] && evictions == old(evictions)
                && LastLoaded(old(log), k) == cached
              else
                && model == loading
                && log == old(log) + [if loading.Some? then Load(k, loading.value) else LoadFailed(k)]
                && evictions == old(evictions) + if |old(models)| == cacheSize then 1 else 0
      ensures model.Some? ==> models != [] && Last(models) == Entry(k, model.value)
    {
      var cached := Find(models, k);
      if cached.Some? {
        HitKeeps(cacheSize, models, evictions, log, k);
        models := Without(models, k) + [Entry(k, cached.value)];
        log := log + [Hit(k, cached.value)];
        return cached;
      }
      ghost var n := if |models| == cacheSize then 1 else 0;
      RoomKeeps(cacheSize, models, evictions, log, n, k);
      if loading.Some? {
        LoadKeeps(cacheSize, models, evictions, log, n, k, loading.value);
      }
      while |models| >= cacheSize
        invariant log == old(log)
        invariant (models == old(models) && evictions == old(evictions))
               || (n == 1 && models == old(models)[1..] && evictions == old(evictions) + 1)
        decreases |models|
      {
        EvictOldest();
      }
      assert models == old(models)[n..];
      if loading.None? {
        log := log + [LoadFailed(k)];
        return None;
      }
      models := models + [Entry(k, loading.value)];
      log := log + [Load(k, loading.value)];
      return loading;
    }
  }
}
