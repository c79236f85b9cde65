/** Global values and the per-request cache as one thread sees them when it is alone, and what
    the cache then promises. There is nothing here that threads could share; the store that
    they do share is measured against this.

    A call of a decorated function is two steps, looking the key up and storing the result of
    the function, between which the function may itself do anything. */
module ThreadView {
  import opened Options

  type Key = string

  const CACHE_KEY: Key := "per_request_cache"

  datatype Op =
    | Set(kwargs: map<Key, int>)
    | Get(key: Key)
    | Clear
    | Call(key: Key)      // of a function decorated with this key
    | Finish(value: int)  // of the function started last

  datatype Out = Nothing | Got(value: Option<int>) | Hit(cached: int) | Started | Result(computed: int)

  /** Nobody calls set_global_info() with nothing, or handles the cache entry by hand. */
  predicate Proper(op: Op) {
    && (op.Set? ==> op.kwargs != map[] && CACHE_KEY !in op.kwargs)
    && (op.Get? ==> op.key != CACHE_KEY)
  }

  /** A started call, and whether the dictionary it will fill is the one in use. */
  datatype Pending = Pending(key: Key, current: bool)

  /** The world of one thread, without numbers and without other threads. */
  datatype View = View(values: map<Key, int>, cache: Option<map<Key, int>>, calls: seq<Pending>) {
    ghost predicate Valid() {
      forall i :: 0 <= i < |calls| && calls[i].current ==> cache.Some?
    }
  }

  const FRESH := View(map[], None, [])

  function Detached(calls: seq<Pending>): (detached: seq<Pending>)
    ensures |detached| == |calls|
    ensures forall i :: 0 <= i < |calls| ==> detached[i] == Pending(calls[i].key, false)
  {
    seq(|calls|, i requires 0 <= i < |calls| => calls[i].(current := false))
  }

  /** One operation of a thread that is alone. */
  function Step(v: View, op: Op): (r: (View, Out))
    requires v.Valid()
    ensures r.0.Valid()
  {
    match op
    case Set(kwargs) => (v.(values := v.values + kwargs), Nothing)
    case Get(key) => (v, Got(if key in v.values then Some(v.values[key]) else None))
    case Clear => (View(map[], None, Detached(v.calls)), Nothing)
    case Call(key) =>
      var cache := if v.cache.Some? then v.cache.value else map[];
      if key in cache then
        (v.(cache := Some(cache)), Hit(cache[key]))
      else
        (v.(cache := Some(cache), calls := v.calls + [Pending(key, true)]), Started)
    case Finish(value) =>
      if v.calls == [] then
        (v, Nothing)
      else
        var n := |v.calls| - 1;
        var top := v.calls[n];
        (v.(calls := v.calls[..n],
            cache := if top.current then Some(v.cache.value[top.key := value]) else v.cache), Result(value))
  }

  /** The world of a thread after it alone has done `ops`. */
  function Final(v: View, ops: seq<Op>): (v': View)
    requires v.Valid()
    ensures v'.Valid()
  {
    if ops == [] then v else Step(Final(v, ops[..|ops| - 1]), ops[|ops| - 1]).0
  }

  /** What a thread sees that is alone. */
  function Outs(v: View, ops: seq<Op>): (outs: seq<Out>)
    requires v.Valid()
    ensures |outs| == |ops|
  {
    if ops == [] then
      []
    else
      Outs(v, ops[..|ops| - 1]) + [Step(Final(v, ops[..|ops| - 1]), ops[|ops| - 1]).1]
  }

  lemma OneMore(v: View, ops: seq<Op>, op: Op)
    requires v.Valid()
    ensures Final(v, ops + [op]) == Step(Final(v, ops), op).0
    ensures Outs(v, ops + [op]) == Outs(v, ops) + [Step(Final(v, ops), op).1]
  {
    assert (ops + [op])[..|ops|] == ops;
  }

  lemma {:induction false} OutAt(v: View, ops: seq<Op>, i: nat)
    requires v.Valid() && i < |ops|
    ensures Outs(v, ops)[i] == Step(Final(v, ops[..i]), ops[i]).1
  {
    var n := |ops| - 1;
    if i < n {
      OutAt(v, ops[..n], i);
      assert ops[..n][..i] == ops[..i];
    }
  }

  lemma FinalStep(v: View, ops: seq<Op>, op: Op, more: seq<Op>)
    requires v.Valid() && more == ops + [op]
    ensures Final(v, more) == Step(Final(v, ops), op).0
  {
    assert more[..|more| - 1] == ops && more[|more| - 1] == op;
  }

  lemma FinalOneMore(v: View, ops: seq<Op>, n: nat)
    requires v.Valid() && n < |ops|
    ensures Final(v, ops[..n + 1]) == Step(Final(v, ops[..n]), ops[n]).0
  {
    FinalStep(v, ops[..n], ops[n], ops[..n + 1]);
  }

  // ------------------------------------------------------------ values

  predicate Sets(op: Op, key: Key) {
    op.Set? && key in op.kwargs
  }

  lemma {:induction false} SetThenHeld(v: View, ops: seq<Op>, i: nat, j: nat, key: Key)
    requires v.Valid() && i < j <= |ops| && Sets(ops[i], key)
    requires forall k :: i < k < j ==> ops[k] != Clear && !Sets(ops[k], key)
    ensures key in Final(v, ops[..j]).values && Final(v, ops[..j]).values[key] == ops[i].kwargs[key]
  {
    FinalOneMore(v, ops, j - 1);
    if i + 1 < j {
      SetThenHeld(v, ops, i, j - 1, key);
    }
  }

  /** A value that was set is found until it is set again or cleared. */
  lemma SetThenGot(v: View, ops: seq<Op>, i: nat, j: nat, key: Key)
    requires v.Valid() && i < j < |ops|
    requires ops[i].Set? && key in ops[i].kwargs && ops[j] == Get(key)
    requires forall k :: i < k < j ==> ops[k] != Clear && !(ops[k].Set? && key in ops[k].kwargs)
    ensures Outs(v, ops)[j] == Got(Some(ops[i].kwargs[key]))
  {
    SetThenHeld(v, ops, i, j, key);
    OutAt(v, ops, j);
  }

  /** No operation before number `j` has set the key since the last Clear, or the start. */
  ghost predicate NotSetBy(ops: seq<Op>, j: nat, key: Key)
    requires j <= |ops|
  {
    exists c :: c <= j && IsStart(ops, c) && forall k :: c <= k < j ==> !(ops[k].Set? && key in ops[k].kwargs)
  }

  /** Operation number `c` is the first one, or comes right after a Clear. */
  predicate IsStart(ops: seq<Op>, c: int) {
    0 <= c <= |ops| && (c == 0 || ops[c - 1] == Clear)
  }

  lemma NotSetByOneMore(ops: seq<Op>, j: nat, key: Key)
    requires j < |ops|
    ensures NotSetBy(ops, j + 1, key) <==> ops[j] == Clear || (NotSetBy(ops, j, key) && !Sets(ops[j], key))
  {
    if ops[j] == Clear {
      assert IsStart(ops, j + 1);
    }
  }

  lemma {:induction false} HeldIsSet(ops: seq<Op>, j: nat, key: Key)
    requires j <= |ops|
    ensures key !in Final(FRESH, ops[..j]).values <==> NotSetBy(ops, j, key)
  {
    if j == 0 {
      assert IsStart(ops, 0);
    } else {
      HeldIsSet(ops, j - 1, key);
      NotSetByOneMore(ops, j - 1, key);
      FinalOneMore(FRESH, ops, j - 1);
    }
  }

  /** A thread finds nothing for a key exactly when it has not set it since it last cleared, or
      ever. */
  lemma NothingIsGot(ops: seq<Op>, j: nat, key: Key)
    requires j < |ops| && ops[j] == Get(key)
    ensures Outs(FRESH, ops)[j] == Got(None) <==> NotSetBy(ops, j, key)
  {
    OutAt(FRESH, ops, j);
    HeldIsSet(ops, j, key);
  }

  // ------------------------------------------------------------ memoisation

  ghost predicate Cached(v: View, key: Key) {
    v.cache.Some? && key in v.cache.value
  }

  /** How many calls for `key` are under way that will fill the dictionary in use. */
  ghost function Open(v: View, key: Key): nat {
    multiset(v.calls)[Pending(key, true)]
  }

  /** The dictionary answers for `key`, and nothing under way can change the answer. */
  ghost predicate Settled(v: View, key: Key, value: int) {
    Cached(v, key) && v.cache.value[key] == value && Open(v, key) == 0
  }

  lemma LastCall(calls: seq<Pending>)
    requires calls != []
    ensures multiset(calls) == multiset(calls[..|calls| - 1]) + multiset{calls[|calls| - 1]}
  {
    assert calls == calls[..|calls| - 1] + [calls[|calls| - 1]];
  }

  /** The function of `key` completes into the dictionary in use. */
  ghost predicate Completes(v: View, op: Op, key: Key) {
    op.Finish? && v.calls != [] && v.calls[|v.calls| - 1] == Pending(key, true)
  }

  ghost predicate Starts(v: View, op: Op, key: Key) {
    op == Call(key) && !Cached(v, key)
  }

  lemma FinishOpen(v: View, value: int, key: Key)
    requires v.Valid()
    ensures Open(Step(v, Finish(value)).0, key) + (if Completes(v, Finish(value), key) then 1 else 0) == Open(v, key)
  {
    if v.calls != [] {
      LastCall(v.calls);
    }
  }

  lemma FinishCached(v: View, value: int, key: Key)
    requires v.Valid()
    ensures var v' := Step(v, Finish(value)).0;
            && (Cached(v', key) <==> Cached(v, key) || Completes(v, Finish(value), key))
            && (Cached(v, key) && !Completes(v, Finish(value), key) ==> v'.cache.value[key] == v.cache.value[key])
  {
    if v.calls != [] {
      assert v.calls[|v.calls| - 1].current ==> v.cache.Some?;
    }
  }

  /** What one operation does to the calls and the cache of a key. */
  lemma StepOpen(v: View, op: Op, key: Key)
    requires v.Valid() && !op.Clear?
    ensures var v' := Step(v, op).0;
            && Open(v', key) + (if Completes(v, op, key) then 1 else 0)
               == Open(v, key) + (if Starts(v, op, key) then 1 else 0)
            && (Cached(v', key) <==> Cached(v, key) || Completes(v, op, key))
            && (Cached(v, key) && !Completes(v, op, key) ==> v'.cache.value[key] == v.cache.value[key])
  {
    if op.Finish? {
      FinishOpen(v, op.value, key);
      FinishCached(v, op.value, key);
    }
  }

  lemma {:induction false} SettledStays(v: View, ops: seq<Op>, key: Key, value: int)
    requires v.Valid() && Settled(v, key, value)
    requires Clear !in ops
    ensures Settled(Final(v, ops), key, value)
  {
    if ops != [] {
      var n := |ops| - 1;
      SettledStays(v, ops[..n], key, value);
      StepOpen(Final(v, ops[..n]), ops[n], key);
    }
  }

  /** Once settled, every later call until the cache is cleared returns that value, and the
      function never starts again. */
  lemma SettledAnswers(v: View, ops: seq<Op>, key: Key, value: int, i: nat)
    requires v.Valid() && Settled(v, key, value)
    requires Clear !in ops
    requires i < |ops| && ops[i] == Call(key)
    ensures Outs(v, ops)[i] == Hit(value)
  {
    OutAt(v, ops, i);
    SettledStays(v, ops[..i], key, value);
  }

  /** When a call completes into the dictionary in use, its result settles the key if and only
      if no outer call for the same key is still under way. */
  lemma CompletionSettles(v: View, key: Key, value: int)
    requires v.Valid() && Completes(v, Finish(value), key)
    ensures Settled(Step(v, Finish(value)).0, key, value) <==> Open(v, key) == 1
  {
    StepOpen(v, Finish(value), key);
    LastCall(v.calls);
  }

  lemma ClearForgets(v: View, key: Key)
    requires v.Valid()
    ensures !Cached(Step(v, Clear).0, key) && Open(Step(v, Clear).0, key) == 0
  {
    assert Pending(key, true) !in Detached(v.calls);
  }

  lemma {:induction false} ForgottenSinceStart(v: View, ops: seq<Op>, c: nat, j: nat, key: Key)
    requires v.Valid() && c <= j <= |ops| && IsStart(ops, c) && (c == 0 ==> v == FRESH)
    requires forall k :: c <= k < j ==> ops[k] != Call(key)
    ensures !Cached(Final(v, ops[..j]), key) && Open(Final(v, ops[..j]), key) == 0
  {
    if j > 0 {
      FinalOneMore(v, ops, j - 1);
      if ops[j - 1] == Clear {
        ClearForgets(Final(v, ops[..j - 1]), key);
      } else {
        ForgottenSinceStart(v, ops, c, j - 1, key);
        StepOpen(Final(v, ops[..j - 1]), ops[j - 1], key);
      }
    }
  }

  /** The first call for a key after a Clear, or ever, starts the function. */
  lemma FirstCallStarts(v: View, ops: seq<Op>, c: nat, j: nat, key: Key)
    requires v.Valid() && c <= j < |ops| && IsStart(ops, c) && (c == 0 ==> v == FRESH)
    requires ops[j] == Call(key)
    requires forall k :: c <= k < j ==> ops[k] != Call(key)
    ensures Outs(v, ops)[j] == Started
  {
    ForgottenSinceStart(v, ops, c, j, key);
    OutAt(v, ops, j);
  }

  ghost function Completions(v: View, ops: seq<Op>, key: Key): nat
    requires v.Valid()
  {
    if ops == [] then
      0
    else
      var n := |ops| - 1;
      Completions(v, ops[..n], key) + if Completes(Final(v, ops[..n]), ops[n], key) then 1 else 0
  }

  ghost function StartedCalls(v: View, ops: seq<Op>, key: Key): nat
    requires v.Valid()
  {
    if ops == [] then
      0
    else
      var n := |ops| - 1;
      StartedCalls(v, ops[..n], key) + if Starts(Final(v, ops[..n]), ops[n], key) then 1 else 0
  }

  /** What was started has completed or is still under way. */
  lemma {:induction false} CallsBalance(v: View, ops: seq<Op>, key: Key)
    requires v.Valid() && Clear !in ops
    ensures Completions(v, ops, key) + Open(Final(v, ops), key) == StartedCalls(v, ops, key) + Open(v, key)
  {
    if ops != [] {
      var n := |ops| - 1;
      CallsBalance(v, ops[..n], key);
      StepOpen(Final(v, ops[..n]), ops[n], key);
    }
  }

  /** Operation number `i` calls the function of `key` while it is under way. */
  ghost predicate ReentersAt(v: View, ops: seq<Op>, key: Key, i: nat)
    requires v.Valid()
  {
    i < |ops| && ops[i] == Call(key) && Open(Final(v, ops[..i]), key) > 0
  }

  /** The function of `key` does not call itself through the decorator. */
  ghost predicate NotReentrant(v: View, ops: seq<Op>, key: Key)
    requires v.Valid()
  {
    forall i: nat :: !ReentersAt(v, ops, key, i)
  }

  lemma ReentersBefore(v: View, ops: seq<Op>, key: Key, n: nat, i: nat)
    requires v.Valid() && n <= |ops|
    ensures ReentersAt(v, ops[..n], key, i) <==> i < n && ReentersAt(v, ops, key, i)
  {
    if i < n {
      assert ops[..n][..i] == ops[..i];
    }
  }

  /** The last operation aside, a run re-enters or it does not. */
  lemma NotReentrantBefore(v: View, ops: seq<Op>, key: Key)
    requires v.Valid() && ops != []
    ensures var n := |ops| - 1;
            NotReentrant(v, ops, key) <==> NotReentrant(v, ops[..n], key) && !ReentersAt(v, ops, key, n)
  {
    var n := |ops| - 1;
    forall i: nat
      ensures ReentersAt(v, ops[..n], key, i) <==> i < n && ReentersAt(v, ops, key, i)
    {
      ReentersBefore(v, ops, key, n, i);
    }
    assert forall i: nat :: ReentersAt(v, ops, key, i) ==> ReentersAt(v, ops[..n], key, i) || i == n;
  }

  /** Without re-entrance, the function is not yet started, under way for the first time, or
      its result is cached. */
  lemma {:induction false} FirstCallOnly(v: View, ops: seq<Op>, key: Key)
    requires v.Valid() && Clear !in ops
    requires !Cached(v, key) && Open(v, key) == 0
    requires NotReentrant(v, ops, key)
    ensures StartedCalls(v, ops, key) <= 1
    ensures Open(Final(v, ops), key) == if Cached(Final(v, ops), key) then 0 else StartedCalls(v, ops, key)
  {
    if ops != [] {
      var n := |ops| - 1;
      NotReentrantBefore(v, ops, key);
      FirstCallOnly(v, ops[..n], key);
      StepOpen(Final(v, ops[..n]), ops[n], key);
    }
  }

  /** The first call of a key while another one is under way starts the function again. */
  lemma {:induction false} ReentrantStartsTwice(v: View, ops: seq<Op>, key: Key)
    requires v.Valid() && Clear !in ops
    requires !Cached(v, key) && Open(v, key) == 0
    requires !NotReentrant(v, ops, key)
    ensures StartedCalls(v, ops, key) >= 2
  {
    var n := |ops| - 1;
    assert ops != [] by {
      assert exists i: nat :: ReentersAt(v, ops, key, i);
    }
    NotReentrantBefore(v, ops, key);
    if NotReentrant(v, ops[..n], key) {
      FirstCallOnly(v, ops[..n], key);
    } else {
      ReentrantStartsTwice(v, ops[..n], key);
    }
  }

  /** Between two clears, when every call has finished: a function that was not cached
      completes at most once if and only if it does not re-enter itself. */
  lemma CompletesAtMostOnce(v: View, ops: seq<Op>, key: Key)
    requires v.Valid() && Clear !in ops
    requires !Cached(v, key) && Open(v, key) == 0
    requires Open(Final(v, ops), key) == 0
    ensures Completions(v, ops, key) <= 1 <==> NotReentrant(v, ops, key)
  {
    CallsBalance(v, ops, key);
    if NotReentrant(v, ops, key) {
      FirstCallOnly(v, ops, key);
    } else {
      ReentrantStartsTwice(v, ops, key);
    }
  }

  /** A result that was computed once is the answer to every later call until a Clear. */
  lemma ResultIsRemembered(v: View, ops: seq<Op>, i: nat, value: int, j: nat, key: Key)
    requires v.Valid() && NotReentrant(v, ops, key)
    requires i + 1 < j < |ops|
    requires ops[i] == Call(key) && Outs(v, ops)[i] == Started && ops[i + 1] == Finish(value)
    requires ops[j] == Call(key) && forall k :: i < k < j ==> ops[k] != Clear
    ensures Outs(v, ops)[i + 1] == Result(value) && Outs(v, ops)[j] == Hit(value)
  {
    var before, started := Final(v, ops[..i]), Final(v, ops[..i + 1]);
    assert !ReentersAt(v, ops, key, i);
    OutAt(v, ops, i);
    OutAt(v, ops, i + 1);
    FinalOneMore(v, ops, i);
    StepOpen(before, ops[i], key);
    FinalOneMore(v, ops, i + 1);
    CompletionSettles(started, key, value);
    SettledUntil(v, ops, i + 2, j, key, value);
    OutAt(v, ops, j);
  }

  lemma {:induction false} SettledUntil(v: View, ops: seq<Op>, i: nat, j: nat, key: Key, value: int)
    requires v.Valid() && i <= j <= |ops| && Settled(Final(v, ops[..i]), key, value)
    requires forall k :: i <= k < j ==> ops[k] != Clear
    ensures Settled(Final(v, ops[..j]), key, value)
  {
    if i < j {
      SettledUntil(v, ops, i, j - 1, key, value);
      FinalOneMore(v, ops, j - 1);
      StepOpen(Final(v, ops[..j - 1]), ops[j - 1], key);
    }
  }

  lemma Next(v: View, ops: seq<Op>, outs: seq<Out>, before: View, op: Op, after: View, out: Out)
    requires v.Valid() && Final(v, ops) == before && Outs(v, ops) == outs
    requires Step(before, op) == (after, out)
    ensures Final(v, ops + [op]) == after && Outs(v, ops + [op]) == outs + [out]
  {
    OneMore(v, ops, op);
  }

  /** The operations of a thread in a function of `key` that calls itself. */
  lemma ReentrantSteps(key: Key)
    ensures var call := Pending(key, true);
            && Step(FRESH, Call(key)) == (View(map[], Some(map[]), [call]), Started)
            && Step(View(map[], Some(map[]), [call]), Call(key)) == (View(map[], Some(map[]), [call, call]), Started)
            && Step(View(map[], Some(map[]), [call, call]), Finish(1))
               == (View(map[], Some(map[key := 1]), [call]), Result(1))
            && Step(View(map[], Some(map[key := 1]), [call]), Finish(2))
               == (View(map[], Some(map[key := 2]), []), Result(2))
            && Step(View(map[], Some(map[key := 2]), []), Call(key))
               == (View(map[], Some(map[key := 2]), []), Hit(2))
  {
    var call := Pending(key, true);
    assert [] + [call] == [call] && [call] + [call] == [call, call];
    assert [call, call][..1] == [call] && [call][..0] == [];
    assert map[key := 1][key := 2] == map[key := 2];
  }

  lemma ReentrantCalls(key: Key)
    ensures var ops, outs := [Call(key), Call(key), Finish(1)], [Started, Started, Result(1)];
            Final(FRESH, ops) == View(map[], Some(map[key := 1]), [Pending(key, true)]) && Outs(FRESH, ops) == outs
  {
    var call := Pending(key, true);
    var v1, v2 := View(map[], Some(map[]), [call]), View(map[], Some(map[]), [call, call]);
    ReentrantSteps(key);
    Next(FRESH, [], [], FRESH, Call(key), v1, Started);
    assert [] + [Call(key)] == [Call(key)] && [] + [Started] == [Started];
    Next(FRESH, [Call(key)], [Started], v1, Call(key), v2, Started);
    assert [Call(key)] + [Call(key)] == [Call(key), Call(key)] && [Started] + [Started] == [Started, Started];
    Next(FRESH, [Call(key), Call(key)], [Started, Started], v2, Finish(1),
         View(map[], Some(map[key := 1]), [call]), Result(1));
    assert [Call(key), Call(key)] + [Finish(1)] == [Call(key), Call(key), Finish(1)];
  }

  /** A re-entrant function completes twice, and the outer result replaces the one that the
      inner call has already returned. */
  lemma ReentrantCompletesTwice(key: Key)
    ensures var ops := [Call(key), Call(key), Finish(1), Finish(2), Call(key)];
            Outs(FRESH, ops) == [Started, Started, Result(1), Result(2), Hit(2)]
  {
    var v := View(map[], Some(map[key := 2]), []);
    var ops, outs := [Call(key), Call(key), Finish(1)], [Started, Started, Result(1)];
    ReentrantSteps(key);
    ReentrantCalls(key);
    Next(FRESH, ops, outs, Final(FRESH, ops), Finish(2), v, Result(2));
    Next(FRESH, ops + [Finish(2)], outs + [Result(2)], v, Call(key), v, Hit(2));
    assert ops + [Finish(2)] + [Call(key)] == [Call(key), Call(key), Finish(1), Finish(2), Call(key)];
  }
}
