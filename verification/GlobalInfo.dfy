/** Global values stored per thread, and the per-request cache with its decorator.

    All threads share one dictionary of dictionaries. Cache dictionaries are objects: they are
    told apart by number here, and the entry of a thread and every started call of a decorated
    function keep the number of the one they use. A call of a decorated function is two steps,
    looking the key up and storing the result of the function, between which the function may
    itself do anything with the store. */
module GlobalInfo {
  import opened Options
  import opened ThreadView

  type Thread = nat

  datatype Value = Plain(value: int) | Dictionary(id: nat)

  /** A started call of a decorated function: its key and the dictionary it will fill. */
  datatype Frame = Frame(key: Key, cache: nat)

  // ------------------------------------------------------------ the store that all threads share

  datatype Store = Store(
    globals: map<Thread, map<Key, Value>>,
    heap: seq<map<Key, int>>,
    stacks: map<Thread, seq<Frame>>)
  {
    function Stack(t: Thread): seq<Frame> {
      if t in stacks then stacks[t] else []
    }

    function Top(t: Thread): Frame
      requires Stack(t) != []
    {
      Stack(t)[|Stack(t)| - 1]
    }

    function Entry(t: Thread): map<Key, Value> {
      if t in globals then globals[t] else map[]
    }

    /** The number of the cache dictionary in the entry of a thread. */
    function Current(t: Thread): Option<nat> {
      if CACHE_KEY in Entry(t) && Entry(t)[CACHE_KEY].Dictionary? then
        Some(Entry(t)[CACHE_KEY].id)
      else
        None
    }

    /** The dictionaries that a thread may read or write. */
    ghost function Reach(t: Thread): set<nat> {
      (if Current(t).Some? then {Current(t).value} else {}) + set f | f in Stack(t) :: f.cache
    }

    /** The entry of a thread has a dictionary for the cache and nothing else, and what the
        thread refers to exists. */
    ghost predicate WellFormed(t: Thread) {
      && (forall k :: k in Entry(t) ==> (Entry(t)[k].Dictionary? <==> k == CACHE_KEY))
      && (forall id :: id in Reach(t) ==> id < |heap|)
    }

    /** No dictionary is within reach of two threads. */
    ghost predicate Valid() {
      && (forall t :: WellFormed(t))
      && (forall t, u :: t != u ==> Reach(t) !! Reach(u))
    }

    /** What there is for a thread to see. */
    ghost function Seen(t: Thread): View
      requires Valid()
    {
      assert WellFormed(t);
      View(
        map k | k in Entry(t) && k != CACHE_KEY :: Entry(t)[k].value,
        if Current(t).Some? then assert Current(t).value in Reach(t); Some(heap[Current(t).value]) else None,
        seq(|Stack(t)|, i requires 0 <= i < |Stack(t)| =>
          Pending(Stack(t)[i].key, Current(t) == Some(Stack(t)[i].cache))))
    }
  }

  ghost predicate SameFor(s: Store, s': Store, u: Thread) {
    && s.Entry(u) == s'.Entry(u)
    && s.Stack(u) == s'.Stack(u)
  }

  /** Thread `t` has changed at most its entry, its stack and dictionaries within its reach, and
      has at most new dictionaries within its reach. */
  ghost predicate OwnChange(s: Store, s': Store, t: Thread) {
    && (forall u :: u != t ==> SameFor(s, s', u))
    && |s.heap| <= |s'.heap|
    && (forall id :: 0 <= id < |s.heap| && s.heap[id] != s'.heap[id] ==> id in s.Reach(t))
    && s'.WellFormed(t)
    && (forall id :: id in s'.Reach(t) ==> id in s.Reach(t) || |s.heap| <= id)
  }

  lemma OwnChangeKeepsValid(s: Store, s': Store, t: Thread)
    requires s.Valid() && OwnChange(s, s', t)
    ensures s'.Valid()
  {
    forall u | u != t
      ensures s'.WellFormed(u) && s'.Reach(u) == s.Reach(u) && s'.Reach(t) !! s'.Reach(u)
    {
      assert SameFor(s, s', u) && s.WellFormed(u) && s.Reach(t) !! s.Reach(u);
    }
  }

  ghost predicate OthersUnaware(s: Store, s': Store, t: Thread) {
    && s.Valid() && s'.Valid()
    && forall u :: u != t ==> s'.Seen(u) == s.Seen(u)
  }

  /** Since no other thread reaches the same dictionaries, no other thread sees the change. */
  lemma OwnChangeIsUnseen(s: Store, s': Store, t: Thread)
    requires s.Valid() && OwnChange(s, s', t)
    ensures OthersUnaware(s, s', t)
  {
    OwnChangeKeepsValid(s, s', t);
    forall u | u != t
      ensures s'.Seen(u) == s.Seen(u)
    {
      assert SameFor(s, s', u) && s.WellFormed(u) && s.Reach(t) !! s.Reach(u);
      assert s.Current(u).Some? ==> s.Current(u).value in s.Reach(u);
      assert s'.Seen(u).calls == s.Seen(u).calls;
    }
  }

  /** A thread alone has changed what it sees, by one operation. */
  ghost predicate ActsAlone(s: Store, s': Store, t: Thread, op: Op, out: Out) {
    && OthersUnaware(s, s', t)
    && (s'.Seen(t), out) == Step(s.Seen(t), op)
  }

  lemma UpdatedEntryIsWellFormed(s: Store, t: Thread, kwargs: map<Key, int>, s': Store)
    requires s.WellFormed(t) && CACHE_KEY !in kwargs
    requires s' == s.(globals := s.globals[t := s.Entry(t) + map k | k in kwargs :: Plain(kwargs[k])])
    ensures s'.WellFormed(t) && s'.Reach(t) == s.Reach(t) && s'.Current(t) == s.Current(t)
  {
    assert s'.Current(t) == s.Current(t);
    assert s'.Reach(t) == s.Reach(t);
  }

  /** Writing plain values into the entry of a thread. */
  lemma UpdatedEntry(s: Store, t: Thread, kwargs: map<Key, int>, s': Store)
    requires s.Valid() && CACHE_KEY !in kwargs
    requires s' == s.(globals := s.globals[t := s.Entry(t) + map k | k in kwargs :: Plain(kwargs[k])])
    ensures ActsAlone(s, s', t, Op.Set(kwargs), Nothing)
  {
    UpdatedEntryIsWellFormed(s, t, kwargs, s');
    OwnChangeIsUnseen(s, s', t);
    UpdatedValues(s, t, kwargs, s');
    assert s'.Seen(t).calls == s.Seen(t).calls;
  }

  lemma UpdatedValues(s: Store, t: Thread, kwargs: map<Key, int>, s': Store)
    requires s.Valid() && s'.Valid() && CACHE_KEY !in kwargs
    requires s'.Entry(t) == s.Entry(t) + map k | k in kwargs :: Plain(kwargs[k])
    ensures s'.Seen(t).values == s.Seen(t).values + kwargs
  {
    var values, values' := s.Seen(t).values, s'.Seen(t).values;
    assert values'.Keys == values.Keys + kwargs.Keys;
  }

  /** Dropping the entry of a thread. */
  lemma PoppedEntry(s: Store, t: Thread, s': Store)
    requires s.Valid()
    requires s' == s.(globals := s.globals - {t})
    ensures ActsAlone(s, s', t, Op.Clear, Nothing)
  {
    assert s.WellFormed(t) && s'.Reach(t) <= s.Reach(t);
    OwnChangeIsUnseen(s, s', t);
    assert s'.Seen(t).values == map[];
    assert s'.Seen(t).calls == Detached(s.Seen(t).calls);
  }

  /** Putting a new dictionary into the entry of a thread. */
  lemma NewCache(s: Store, t: Thread, s': Store)
    requires s.Valid() && s.Current(t).None?
    requires s' == Store(s.globals[t := s.Entry(t)[CACHE_KEY := Dictionary(|s.heap|)]], s.heap + [map[]], s.stacks)
    ensures OthersUnaware(s, s', t) && s'.Seen(t) == s.Seen(t).(cache := Some(map[]))
  {
    assert s.WellFormed(t) && s'.Current(t) == Some(|s.heap|);
    assert s'.Reach(t) == s.Reach(t) + {|s.heap|};
    OwnChangeIsUnseen(s, s', t);
    assert s'.Seen(t).values == s.Seen(t).values;
    assert forall f :: f in s.Stack(t) ==> f.cache in s.Reach(t);
    assert s'.Seen(t).calls == s.Seen(t).calls;
  }

  /** Starting a call that will fill the current dictionary. */
  lemma PushedFrame(s: Store, t: Thread, key: Key, s': Store)
    requires s.Valid() && s.Current(t).Some?
    requires s' == s.(stacks := s.stacks[t := s.Stack(t) + [Frame(key, s.Current(t).value)]])
    ensures OthersUnaware(s, s', t) && s'.Seen(t) == s.Seen(t).(calls := s.Seen(t).calls + [Pending(key, true)])
  {
    assert s.WellFormed(t) && s'.Current(t) == s.Current(t);
    assert s'.Reach(t) == s.Reach(t);
    OwnChangeIsUnseen(s, s', t);
    assert s'.Seen(t).calls == s.Seen(t).calls + [Pending(key, true)];
  }

  /** Finishing the call started last. */
  lemma PoppedFrame(s: Store, t: Thread, value: int, s': Store)
    requires s.Valid() && s.Stack(t) != []
    requires s.Top(t).cache < |s.heap|
    requires s' == Store(
                     s.globals,
                     s.heap[s.Top(t).cache := s.heap[s.Top(t).cache][s.Top(t).key := value]],
                     s.stacks[t := s.Stack(t)[..|s.Stack(t)| - 1]])
    ensures ActsAlone(s, s', t, Op.Finish(value), Result(value))
  {
    var n := |s.Stack(t)| - 1;
    assert s.Stack(t)[n] in s.Stack(t);
    assert s.WellFormed(t) && s.Top(t).cache in s.Reach(t) && s'.Reach(t) <= s.Reach(t);
    assert s'.Current(t) == s.Current(t);
    OwnChangeIsUnseen(s, s', t);
    assert s'.Seen(t).calls == s.Seen(t).calls[..n];
  }

  // ------------------------------------------------------------ runs of all threads

  /** What belongs to thread `t` in a list where each element belongs to some thread. */
  function By<T>(threads: seq<Thread>, xs: seq<T>, t: Thread): seq<T>
    requires |threads| == |xs|
  {
    if xs == [] then
      []
    else
      var n := |xs| - 1;
      By(threads[..n], xs[..n], t) + if threads[n] == t then [xs[n]] else []
  }

  /** An interleaving: at each moment some thread does an operation, and gets an answer. */
  ghost predicate IsRun(stores: seq<Store>, threads: seq<Thread>, ops: seq<Op>, outs: seq<Out>) {
    && |threads| == |ops| == |outs| && |stores| == |ops| + 1
    && forall k :: 0 <= k < |ops| ==> ActsAlone(stores[k], stores[k + 1], threads[k], ops[k], outs[k])
  }

  lemma RunBefore(stores: seq<Store>, threads: seq<Thread>, ops: seq<Op>, outs: seq<Out>, n: nat)
    requires IsRun(stores, threads, ops, outs) && n + 1 == |ops|
    ensures IsRun(stores[..n + 1], threads[..n], ops[..n], outs[..n])
    ensures ActsAlone(stores[n], stores[n + 1], threads[n], ops[n], outs[n])
  {
  }

  /** From `s` to `s'`, thread `t` has done `ops` and seen `outs` as if alone. */
  ghost predicate AsIfAlone(s: Store, s': Store, t: Thread, ops: seq<Op>, outs: seq<Out>) {
    && s.Valid() && s'.Valid()
    && s'.Seen(t) == Final(s.Seen(t), ops)
    && outs == Outs(s.Seen(t), ops)
  }

  lemma AsIfAloneStep(s: Store, s1: Store, s2: Store, t: Thread, ops: seq<Op>, outs: seq<Out>, u: Thread, op: Op,
      out: Out)
    requires AsIfAlone(s, s1, t, ops, outs)
    requires ActsAlone(s1, s2, u, op, out)
    ensures if u == t then AsIfAlone(s, s2, t, ops + [op], outs + [out]) else AsIfAlone(s, s2, t, ops, outs)
  {
    if u == t {
      OneMore(s.Seen(t), ops, op);
    }
  }

  /** Under every interleaving, each thread sees exactly what it would see running alone. */
  lemma {:induction false} ThreadsAreIsolated(stores: seq<Store>, threads: seq<Thread>, ops: seq<Op>, outs: seq<Out>,
      t: Thread)
    requires IsRun(stores, threads, ops, outs)
    requires stores[0].Valid()
    ensures AsIfAlone(stores[0], stores[|ops|], t, By(threads, ops, t), By(threads, outs, t))
    decreases |ops|
  {
    if ops != [] {
      var n := |ops| - 1;
      var before, heard := By(threads[..n], ops[..n], t), By(threads[..n], outs[..n], t);
      RunBefore(stores, threads, ops, outs, n);
      ThreadsAreIsolated(stores[..n + 1], threads[..n], ops[..n], outs[..n], t);
      AsIfAloneStep(stores[0], stores[n], stores[n + 1], t, before, heard, threads[n], ops[n], outs[n]);
      if threads[n] != t {
        assert before + [] == before && heard + [] == heard;
      }
    }
  }

  /** The module, and the stacks of the threads that call it. */
  class Module {
    var globals: map<Thread, map<Key, Value>>
    var heap: seq<map<Key, int>>
    var stacks: map<Thread, seq<Frame>>

    constructor ()
      ensures Valid() && forall t :: Seen(t) == FRESH
    {
      globals, heap, stacks := map[], [], map[];
    }

    ghost function Now(): Store
      reads this
    {
      Store(globals, heap, stacks)
    }

    ghost predicate Valid()
      reads this
    {
      Now().Valid()
    }

    ghost function Seen(t: Thread): View
      reads this
      requires Valid()
    {
      Now().Seen(t)
    }

    method GetGlobalInfo(thread: Thread, key: Key) returns (value: Option<int>)
      requires Valid() && key != CACHE_KEY
      ensures ActsAlone(Now(), Now(), thread, Op.Get(key), Got(value))
      ensures value == if key in Seen(thread).values then Some(Seen(thread).values[key]) else None
    {
      if thread !in globals || key !in globals[thread] {
        return None;
      }
      assert Now().WellFormed(thread) && key in Now().Entry(thread);
      value := Some(globals[thread][key].value);
    }

    method SetGlobalInfo(thread: Thread, kwargs: map<Key, int>)
      requires Valid() && kwargs != map[] && CACHE_KEY !in kwargs
      modifies this
      ensures ActsAlone(old(Now()), Now(), thread, Op.Set(kwargs), Nothing)
    {
      var info := if thread in globals then globals[thread] else map[];
      globals := globals[thread := info + map k | k in kwargs :: Plain(kwargs[k])];
      UpdatedEntry(old(Now()), thread, kwargs, Now());
    }

    method ClearGlobalInfo(thread: Thread)
      requires Valid()
      modifies this
      ensures ActsAlone(old(Now()), Now(), thread, Op.Clear, Nothing)
    {
      globals := globals - {thread};
      PoppedEntry(old(Now()), thread, Now());
    }

    /** get_per_request_cache(): the number of the dictionary. */
    method GetPerRequestCache(thread: Thread) returns (cache: nat)
      requires Valid()
      modifies this
      ensures OthersUnaware(old(Now()), Now(), thread) && Now().Current(thread) == Some(cache)
      ensures var seen := old(Seen(thread));
              Seen(thread) == seen.(cache := Some(if seen.cache.Some? then seen.cache.value else map[]))
    {
      var info := if thread in globals then globals[thread] else map[];
      assert Now().WellFormed(thread) && info == Now().Entry(thread);
      if CACHE_KEY in info {
        return info[CACHE_KEY].id;
      }
      cache := |heap|;
      heap := heap + [map[]];
      globals := globals[thread := info[CACHE_KEY := Dictionary(cache)]];
      NewCache(old(Now()), thread, Now());
    }

    /** A decorated function up to the point where its cache has answered or missed. */
    method BeginCached(thread: Thread, key: Key) returns (out: Out)
      requires Valid()
      modifies this
      ensures ActsAlone(old(Now()), Now(), thread, Op.Call(key), out)
    {
      var cache := GetPerRequestCache(thread);
      ghost var before := Now();
      assert before.WellFormed(thread) && cache in before.Reach(thread);
      assert Seen(thread).cache == Some(heap[cache]);
      if key in heap[cache] {
        return Hit(heap[cache][key]);
      }
      var stack := if thread in stacks then stacks[thread] else [];
      stacks := stacks[thread := stack + [Frame(key, cache)]];
      PushedFrame(before, thread, key, Now());
      assert (Seen(thread), Started) == Step(old(Seen(thread)), Op.Call(key));
      out := Started;
    }

    /** The rest of the function started last: its result goes into the dictionary it had
        looked in, be it the one in use or not. */
    method EndCached(thread: Thread, value: int) returns (out: Out)
      requires Valid()
      modifies this
      ensures ActsAlone(old(Now()), Now(), thread, Op.Finish(value), out)
    {
      if thread !in stacks || stacks[thread] == [] {
        return Nothing;
      }
      var n := |stacks[thread]| - 1;
      var top := stacks[thread][n];
      assert top in Now().Stack(thread) && Now().WellFormed(thread) && top.cache in Now().Reach(thread);
      heap := heap[top.cache := heap[top.cache][top.key := value]];
      stacks := stacks[thread := stacks[thread][..n]];
      PoppedFrame(old(Now()), thread, value, Now());
      out := Result(value);
    }

    /** The call for one operation. */
    method Do(thread: Thread, op: Op) returns (out: Out)
      requires Valid() && Proper(op)
      modifies this
      ensures ActsAlone(old(Now()), Now(), thread, op, out)
    {
      match op
      case Set(kwargs) =>
        SetGlobalInfo(thread, kwargs);
        out := Nothing;
      case Get(key) =>
        var value := GetGlobalInfo(thread, key);
        out := Got(value);
      case Clear =>
        ClearGlobalInfo(thread);
        out := Nothing;
      case Call(key) =>
        out := BeginCached(thread, key);
      case Finish(value) =>
        out := EndCached(thread, value);
    }

    /** Any interleaving of calls by any threads: each hears what it would hear alone. */
    method Interleave(threads: seq<Thread>, ops: seq<Op>) returns (outs: seq<Out>)
      requires Valid() && |threads| == |ops| && forall op :: op in ops ==> Proper(op)
      modifies this
      ensures |outs| == |ops|
      ensures forall t :: AsIfAlone(old(Now()), Now(), t, By(threads, ops, t), By(threads, outs, t))
    {
      ghost var stores := [Now()];
      outs := [];
      for n := 0 to |ops|
        invariant Valid() && |outs| == n
        invariant IsRun(stores, threads[..n], ops[..n], outs)
        invariant stores[0] == old(Now()) && stores[n] == Now()
      {
        assert ops[n] in ops;
        var out := Do(threads[n], ops[n]);
        outs, stores := outs + [out], stores + [Now()];
      }
      assert threads[..|ops|] == threads && ops[..|ops|] == ops;
      forall t
        ensures AsIfAlone(old(Now()), Now(), t, By(threads, ops, t), By(threads, outs, t))
      {
        ThreadsAreIsolated(stores, threads, ops, outs, t);
      }
    }
  }
}
