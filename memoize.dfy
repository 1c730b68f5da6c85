/** The memoizing wrapper `memoize(fn)`: a private map from the JSON text of an
    argument list to the value the wrapped function resolved with for it. A
    call whose key is present answers from the map; otherwise it invokes the
    wrapped function once and stores the value only if the call resolved, so a
    rejection is passed on and never cached.

    The wrapped function is a deterministic function of the argument list that
    either resolves with a value or rejects. Its invocations are recorded in a
    ghost log, which is how "invoked once" and "not invoked" are stated. */
module Memoize {
  import opened Key

  /** How a call of the wrapped function settles. */
  datatype Outcome<V> = Resolved(value: V) | Rejected(reason: string)

  /** The wrapper's state: its cache and the argument lists the wrapped
      function has been invoked with, oldest first. */
  datatype Memo<V> = Memo(cache: map<string, V>, log: seq<seq<int>>)

  /** The state of a freshly created wrapper. */
  function Empty<V>(): (m: Memo<V>) {
    Memo(map[], [])
  }

  /** Every entry of `before` is in `after` with the same value. */
  ghost predicate Extends<V>(before: map<string, V>, after: map<string, V>) {
    forall k | k in before :: k in after && after[k] == before[k]
  }

  /** Every entry was produced by a logged invocation that resolved with it. */
  ghost predicate EntriesLogged<V>(fn: seq<int> -> Outcome<V>, m: Memo<V>) {
    forall k | k in m.cache ::
      exists i | 0 <= i < |m.log| :: Stringify(m.log[i]) == k && fn(m.log[i]) == Resolved(m.cache[k])
  }

  /** Every invocation that resolved left its entry behind. */
  ghost predicate SuccessesCached<V>(fn: seq<int> -> Outcome<V>, m: Memo<V>) {
    forall i | 0 <= i < |m.log| :: fn(m.log[i]).Resolved? ==> Stringify(m.log[i]) in m.cache
  }

  /** No key is invoked again once an invocation for it resolved. */
  ghost predicate NoRefetch<V>(fn: seq<int> -> Outcome<V>, log: seq<seq<int>>) {
    forall i, j | 0 <= i < j < |log| :: Stringify(log[i]) == Stringify(log[j]) ==> fn(log[i]).Rejected?
  }

  /** The invariant the wrapper keeps. */
  ghost predicate Inv<V>(fn: seq<int> -> Outcome<V>, m: Memo<V>) {
    EntriesLogged(fn, m) && SuccessesCached(fn, m) && NoRefetch(fn, m.log)
  }

  /** One call of the wrapped function through the cache: the new state and
      what the call settles with. */
  function Step<V>(fn: seq<int> -> Outcome<V>, m: Memo<V>, args: seq<int>): (r: (Memo<V>, Outcome<V>))
    ensures Extends(m.cache, r.0.cache)
    ensures m.log <= r.0.log && |r.0.log| <= |m.log| + 1
    ensures Stringify(args) in r.0.cache <==> r.1.Resolved?
    ensures r.1.Resolved? ==> r.0.cache[Stringify(args)] == r.1.value
  {
    var key := Stringify(args);
    if key in m.cache then
      (m, Resolved(m.cache[key]))
    else
      var out := fn(args);
      var log := m.log + [args];
      match out
      case Resolved(v) => (Memo(m.cache[key := v], log), out)
      case Rejected(_) => (Memo(m.cache, log), out)
  }

  lemma EmptyInv<V>(fn: seq<int> -> Outcome<V>)
    ensures Inv(fn, Empty<V>())
  {
  }

  lemma MissKeepsEntriesLogged<V>(fn: seq<int> -> Outcome<V>, m: Memo<V>, args: seq<int>)
    requires EntriesLogged(fn, m) && Stringify(args) !in m.cache
    ensures EntriesLogged(fn, Step(fn, m, args).0)
  {
    var key := Stringify(args);
    var m' := Step(fn, m, args).0;
    assert m'.log == m.log + [args];
    forall k | k in m'.cache
      ensures exists i | 0 <= i < |m'.log| :: Stringify(m'.log[i]) == k && fn(m'.log[i]) == Resolved(m'.cache[k])
    {
      if k == key {
        assert m'.log[|m.log|] == args;
      } else {
        var i :| 0 <= i < |m.log| && Stringify(m.log[i]) == k && fn(m.log[i]) == Resolved(m.cache[k]);
        assert m'.log[i] == m.log[i];
      }
    }
  }

  lemma MissKeepsSuccessesCached<V>(fn: seq<int> -> Outcome<V>, m: Memo<V>, args: seq<int>)
    requires SuccessesCached(fn, m) && Stringify(args) !in m.cache
    ensures SuccessesCached(fn, Step(fn, m, args).0)
  {
    var m' := Step(fn, m, args).0;
    forall i | 0 <= i < |m'.log| && fn(m'.log[i]).Resolved? ensures Stringify(m'.log[i]) in m'.cache {
      if i < |m.log| {
        assert m'.log[i] == m.log[i];
      }
    }
  }

  lemma MissKeepsNoRefetch<V>(fn: seq<int> -> Outcome<V>, m: Memo<V>, args: seq<int>)
    requires SuccessesCached(fn, m) && NoRefetch(fn, m.log) && Stringify(args) !in m.cache
    ensures NoRefetch(fn, Step(fn, m, args).0.log)
  {
    var log' := Step(fn, m, args).0.log;
    assert log' == m.log + [args];
    forall i, j | 0 <= i < j < |log'| && Stringify(log'[i]) == Stringify(log'[j]) ensures fn(log'[i]).Rejected? {
      assert log'[i] == m.log[i];
      if j < |m.log| {
        assert log'[j] == m.log[j];
      }
    }
  }

  lemma StepPreservesInv<V>(fn: seq<int> -> Outcome<V>, m: Memo<V>, args: seq<int>)
    requires Inv(fn, m)
    ensures Inv(fn, Step(fn, m, args).0)
  {
    if Stringify(args) !in m.cache {
      MissKeepsEntriesLogged(fn, m, args);
      MissKeepsSuccessesCached(fn, m, args);
      MissKeepsNoRefetch(fn, m, args);
    }
  }

  /** Memoization is invisible to the caller: a call through a wrapper in a
      consistent state settles exactly as the wrapped function would. */
  lemma StepTransparent<V>(fn: seq<int> -> Outcome<V>, m: Memo<V>, args: seq<int>)
    requires Inv(fn, m)
    ensures Step(fn, m, args).1 == fn(args)
  {
    var key := Stringify(args);
    if key in m.cache {
      var i :| 0 <= i < |m.log| && Stringify(m.log[i]) == key && fn(m.log[i]) == Resolved(m.cache[key]);
      StringifyInjective(m.log[i], args);
    }
  }

  /** A call whose key is cached does not invoke the wrapped function and
      changes nothing; a call whose key is absent invokes it exactly once. */
  lemma StepInvocations<V>(fn: seq<int> -> Outcome<V>, m: Memo<V>, args: seq<int>)
    ensures Stringify(args) in m.cache ==> Step(fn, m, args).0 == m
    ensures Stringify(args) !in m.cache ==> Step(fn, m, args).0.log == m.log + [args]
  {
  }

  /** After a call resolves, the next call with an equal argument list returns
      the same value without invoking the wrapped function. */
  lemma RepeatedCallIsHit<V>(fn: seq<int> -> Outcome<V>, m: Memo<V>, args: seq<int>)
    requires Step(fn, m, args).1.Resolved?
    ensures var (m1, r1) := Step(fn, m, args);
            Step(fn, m1, args) == (m1, r1)
  {
  }

  /** A rejection is not cached: the key stays absent and the next call with
      the same argument list invokes the wrapped function again. */
  lemma FailureIsRetried<V>(fn: seq<int> -> Outcome<V>, m: Memo<V>, args: seq<int>)
    requires Inv(fn, m)
    requires fn(args).Rejected?
    ensures var (m1, r1) := Step(fn, m, args);
            && r1 == fn(args)
            && m1.cache == m.cache
            && m1.log == m.log + [args]
            && Step(fn, m1, args).0.log == m1.log + [args]
  {
    StepTransparent(fn, m, args);
  }

  /** A sequence of calls through one wrapper: the final state and what each
      call settled with. */
  function Run<V>(fn: seq<int> -> Outcome<V>, m: Memo<V>, calls: seq<seq<int>>): (r: (Memo<V>, seq<Outcome<V>>))
    ensures |r.1| == |calls|
    ensures Extends(m.cache, r.0.cache) && m.log <= r.0.log
    decreases |calls|
  {
    if |calls| == 0 then (m, [])
    else
      var (m1, out) := Step(fn, m, calls[0]);
      var (m2, outs) := Run(fn, m1, calls[1..]);
      (m2, [out] + outs)
  }

  lemma {:induction false} RunPreservesInv<V>(fn: seq<int> -> Outcome<V>, m: Memo<V>, calls: seq<seq<int>>)
    requires Inv(fn, m)
    ensures Inv(fn, Run(fn, m, calls).0)
    decreases |calls|
  {
    if |calls| > 0 {
      StepPreservesInv(fn, m, calls[0]);
      RunPreservesInv(fn, Step(fn, m, calls[0]).0, calls[1..]);
    }
  }

  /** Every call of a run settles as the wrapped function would. */
  lemma {:induction false} RunTransparent<V>(fn: seq<int> -> Outcome<V>, m: Memo<V>, calls: seq<seq<int>>)
    requires Inv(fn, m)
    ensures forall n | 0 <= n < |calls| :: Run(fn, m, calls).1[n] == fn(calls[n])
    decreases |calls|
  {
    if |calls| > 0 {
      var m1 := Step(fn, m, calls[0]).0;
      StepTransparent(fn, m, calls[0]);
      StepPreservesInv(fn, m, calls[0]);
      RunTransparent(fn, m1, calls[1..]);
      forall n | 1 <= n < |calls| ensures Run(fn, m, calls).1[n] == fn(calls[n]) {
        assert calls[n] == calls[1..][n - 1];
      }
    }
  }

  /** After a call, its argument list has been logged: either just now, or
      by the earlier invocation whose entry answered it. */
  lemma StepLogsArgs<V>(fn: seq<int> -> Outcome<V>, m: Memo<V>, args: seq<int>)
    requires Inv(fn, m)
    ensures args in Step(fn, m, args).0.log
  {
    var key := Stringify(args);
    if key in m.cache {
      var i :| 0 <= i < |m.log| && Stringify(m.log[i]) == key && fn(m.log[i]) == Resolved(m.cache[key]);
      StringifyInjective(m.log[i], args);
    } else {
      assert Step(fn, m, args).0.log[|m.log|] == args;
    }
  }

  /** Every argument list of a run reaches the wrapped function at least once. */
  lemma {:induction false} RunInvokesEveryArgs<V>(fn: seq<int> -> Outcome<V>, m: Memo<V>, calls: seq<seq<int>>)
    requires Inv(fn, m)
    ensures forall a | a in calls :: a in Run(fn, m, calls).0.log
    decreases |calls|
  {
    if |calls| > 0 {
      var m1 := Step(fn, m, calls[0]).0;
      StepLogsArgs(fn, m, calls[0]);
      StepPreservesInv(fn, m, calls[0]);
      RunInvokesEveryArgs(fn, m1, calls[1..]);
      var final := Run(fn, m, calls).0;
      assert m1.log <= final.log;
      forall a | a in calls ensures a in final.log {
        if a != calls[0] {
          assert a in calls[1..];
        }
      }
    }
  }

  /** How many times `a` occurs in an invocation log. */
  function Occurrences(log: seq<seq<int>>, a: seq<int>): (n: nat)
    ensures n <= |log|
  {
    if |log| == 0 then 0
    else Occurrences(log[..|log| - 1], a) + (if log[|log| - 1] == a then 1 else 0)
  }

  lemma {:induction false} OccurrencesAbsent(log: seq<seq<int>>, a: seq<int>)
    requires forall i | 0 <= i < |log| :: log[i] != a
    ensures Occurrences(log, a) == 0
    decreases |log|
  {
    if |log| > 0 {
      OccurrencesAbsent(log[..|log| - 1], a);
    }
  }

  lemma {:induction false} OccurrencesPresent(log: seq<seq<int>>, a: seq<int>)
    requires a in log
    ensures Occurrences(log, a) >= 1
    decreases |log|
  {
    if log[|log| - 1] != a {
      var prefix := log[..|log| - 1];
      assert log == prefix + [log[|log| - 1]];
      OccurrencesPresent(prefix, a);
    }
  }

  lemma {:induction false} NoRefetchOnce<V>(fn: seq<int> -> Outcome<V>, log: seq<seq<int>>, a: seq<int>)
    requires NoRefetch(fn, log)
    requires fn(a).Resolved?
    ensures Occurrences(log, a) <= 1
    decreases |log|
  {
    if |log| > 0 {
      var prefix := log[..|log| - 1];
      assert NoRefetch(fn, prefix) by {
        forall i, j | 0 <= i < j < |prefix| ensures Stringify(prefix[i]) == Stringify(prefix[j]) ==> fn(prefix[i]).Rejected? {
          assert prefix[i] == log[i] && prefix[j] == log[j];
        }
      }
      NoRefetchOnce(fn, prefix, a);
      if log[|log| - 1] == a {
        forall i | 0 <= i < |prefix| ensures prefix[i] != a {
          assert prefix[i] == log[i];
        }
        OccurrencesAbsent(prefix, a);
      }
    }
  }

  /** A wrapper in a consistent state has invoked the wrapped function at most
      once for an argument list it resolves for. */
  lemma FetchedAtMostOnce<V>(fn: seq<int> -> Outcome<V>, m: Memo<V>, a: seq<int>)
    requires Inv(fn, m)
    requires fn(a).Resolved?
    ensures Occurrences(m.log, a) <= 1
  {
    NoRefetchOnce(fn, m.log, a);
  }

  /** Over any sequence of calls through a fresh wrapper, an argument list the
      wrapped function resolves for is fetched exactly once, however often it
      is asked for. */
  lemma FetchedExactlyOnce<V>(fn: seq<int> -> Outcome<V>, calls: seq<seq<int>>, a: seq<int>)
    requires a in calls
    requires fn(a).Resolved?
    ensures Occurrences(Run(fn, Empty(), calls).0.log, a) == 1
  {
    var final := Run(fn, Empty(), calls).0;
    EmptyInv<V>(fn);
    RunPreservesInv(fn, Empty(), calls);
    RunInvokesEveryArgs(fn, Empty(), calls);
    OccurrencesPresent(final.log, a);
    FetchedAtMostOnce(fn, final, a);
  }

  /** The object `memoize(fn)` returns: each one owns its own cache. */
  class Memoized<V> {
    const fn: seq<int> -> Outcome<V>
    var cache: map<string, V>
    ghost var log: seq<seq<int>>

    ghost function State(): Memo<V>
      reads this
    {
      Memo(cache, log)
    }

    ghost predicate Valid()
      reads this
    {
      Inv(fn, State())
    }

    /** `memoize(fn)`: a wrapper with an empty cache that has invoked nothing. */
    constructor (fn: seq<int> -> Outcome<V>)
      ensures Valid() && this.fn == fn
      ensures cache == map[] && log == []
    {
      this.fn := fn;
      cache := map[];
      log := [];
    }

    /** A call of the wrapper with argument list `args`. */
    method Call(args: seq<int>) returns (r: Outcome<V>)
      requires Valid()
      modifies this
      ensures Valid()
      ensures (State(), r) == Step(fn, old(State()), args)
      ensures r == fn(args)
      ensures Stringify(args) in old(cache) ==> cache == old(cache) && log == old(log)
      ensures Stringify(args) !in old(cache) ==> log == old(log) + [args]
      ensures Extends(old(cache), cache)
      ensures Stringify(args) in cache <==> r.Resolved?
    {
      StepPreservesInv(fn, State(), args);
      StepTransparent(fn, State(), args);
      var key := Stringify(args);
      if key in cache {
        return Resolved(cache[key]);
      }
      r := fn(args);
      log := log + [args];
      if r.Resolved? {
        cache := cache[key := r.value];
      }
    }
  }

  /** Two wrappers share nothing: a call through one leaves the other's cache
      and invocation log as they were. */
  method SeparateWrappers<V>(a: Memoized<V>, b: Memoized<V>, args: seq<int>)
    requires a != b && a.Valid() && b.Valid()
    modifies a
    ensures a.Valid()
    ensures b.cache == old(b.cache) && b.log == old(b.log)
  {
    var _ := a.Call(args);
  }
}
