/**
The in-memory sliding-window rate limiter (common/rate-limit.go): a queue of accepted times
per key, and a background sweeper that drops idle keys. Times are whole seconds and do not
decrease; the mutex makes each request and each sweep one step.
*/
module RateLimit {

  type Store = map<string, seq<int>>

  /** What the callers of one key pass to `Request`. */
  datatype Limit = Limit(max: int, duration: int)

  datatype Event = Request(key: string, now: int) | Sweep(now: int)

  /** How many accepted times a queue keeps: a maximum of 0 behaves as 1. */
  function Capacity(l: Limit): int {
    if l.max < 1 then 1 else l.max
  }

  function Queue(st: Store, key: string): seq<int> {
    if key in st then st[key] else []
  }

  predicate Accepts(q: seq<int>, l: Limit, now: int) {
    q == [] || |q| < l.max || now - q[0] >= l.duration
  }

  function Pushed(q: seq<int>, l: Limit, now: int): seq<int> {
    if q == [] || |q| < l.max then q + [now]
    else if now - q[0] >= l.duration then q[1..] + [now]
    else q
  }

  predicate Idle(q: seq<int>, expiration: int, now: int) {
    q == [] || now - q[|q| - 1] > expiration
  }

  function Swept(st: Store, expiration: int, now: int): Store {
    map key | key in st && !Idle(st[key], expiration, now) :: st[key]
  }

  class InMemoryRateLimiter {
    var store: Store
    const expiration: int

    /** No queue in the store is ever empty. */
    ghost predicate Valid()
      reads this
    {
      forall key | key in store :: store[key] != []
    }

    constructor (expiration: int)
      ensures Valid() && store == map[] && this.expiration == expiration
    {
      store := map[];
      this.expiration := expiration;
    }

    method ClearExpiredItems(now: int)
      requires Valid()
      modifies this`store
      ensures Valid() && store == Swept(old(store), expiration, now)
    {
      var pending := store.Keys;
      while pending != {}
        invariant pending <= old(store).Keys
        invariant store == map key | key in old(store) && (key in pending || !Idle(old(store)[key], expiration, now)) :: old(store)[key]
        decreases pending
      {
        var key :| key in pending;
        var queue := store[key];
        if |queue| == 0 || now - queue[|queue| - 1] > expiration {
          store := store - {key};
        }
        pending := pending - {key};
      }
    }

    /** A negative maximum makes `make` panic (line 65). */
    method Request(key: string, maxRequestNum: int, duration: int, now: int) returns (ok: bool)
      requires Valid() && maxRequestNum >= 0
      modifies this`store
      ensures Valid()
      ensures ok == Accepts(Queue(old(store), key), Limit(maxRequestNum, duration), now)
      ensures store == old(store)[key := Pushed(Queue(old(store), key), Limit(maxRequestNum, duration), now)]
    {
      if key in store {
        var queue := store[key];
        if |queue| < maxRequestNum {
          store := store[key := queue + [now]];
          return true;
        } else if now - queue[0] >= duration {
          queue := queue[1..];
          store := store[key := queue + [now]];
          return true;
        } else {
          return false;
        }
      }
      store := store[key := [now]];
      assert [] + [now] == [now];
      return true;
    }
  }

  // ---- Runs ----

  type Limits = string -> Limit

  function Next(st: Store, e: Event, limits: Limits, expiration: int, sweeping: bool): Store {
    match e
    case Request(key, now) => st[key := Pushed(Queue(st, key), limits(key), now)]
    case Sweep(now) => if sweeping then Swept(st, expiration, now) else st
  }

  predicate Decision(st: Store, e: Event, limits: Limits) {
    e.Request? ==> Accepts(Queue(st, e.key), limits(e.key), e.now)
  }

  /** The answers a limiter in state `st` gives along `es`; with `sweeping` off, sweeps do nothing. */
  function Decisions(st: Store, es: seq<Event>, limits: Limits, expiration: int, sweeping: bool): (ds: seq<bool>)
    ensures |ds| == |es|
    decreases |es|
  {
    if es == [] then []
    else [Decision(st, es[0], limits)] + Decisions(Next(st, es[0], limits, expiration, sweeping), es[1..], limits, expiration, sweeping)
  }

  ghost predicate Timed(from: int, es: seq<Event>) {
    && (forall i | 0 <= i < |es| :: from <= es[i].now)
    && (forall i, j | 0 <= i < j < |es| :: es[i].now <= es[j].now)
  }

  lemma TimedTail(from: int, es: seq<Event>)
    requires Timed(from, es) && es != []
    ensures from <= es[0].now && Timed(es[0].now, es[1..])
  {}

  ghost predicate Sorted(q: seq<int>) {
    forall i, j | 0 <= i < j < |q| :: q[i] <= q[j]
  }

  // ---- The sweeper is unobservable ----

  /** `q` is `f` without some leading times, all of them out of reach of the sweeper's expiry. */
  ghost predicate Forgot(q: seq<int>, f: seq<int>, l: Limit, expiration: int, now: int) {
    && |q| <= |f| <= Capacity(l)
    && q == f[|f| - |q|..]
    && (forall i | 0 <= i < |f| - |q| :: now - f[i] > expiration)
    && Sorted(f) && (forall i | 0 <= i < |f| :: f[i] <= now)
  }

  ghost predicate Related(st: Store, full: Store, limits: Limits, expiration: int, now: int) {
    forall key :: Forgot(Queue(st, key), Queue(full, key), limits(key), expiration, now)
  }

  lemma ForgotLater(q: seq<int>, f: seq<int>, l: Limit, expiration: int, now: int, now': int)
    requires Forgot(q, f, l, expiration, now) && now <= now'
    ensures Forgot(q, f, l, expiration, now')
  {}

  lemma ForgotAppend(q: seq<int>, f: seq<int>, l: Limit, expiration: int, now: int)
    requires Forgot(q, f, l, expiration, now) && |f| < Capacity(l)
    ensures Forgot(q + [now], f + [now], l, expiration, now)
  {}

  lemma ForgotShift(q: seq<int>, f: seq<int>, l: Limit, expiration: int, now: int)
    requires Forgot(q, f, l, expiration, now) && |q| < |f|
    ensures Forgot(q + [now], f[1..] + [now], l, expiration, now)
  {}

  lemma PushedSorted(f: seq<int>, l: Limit, now: int)
    requires |f| <= Capacity(l) && l.max >= 0 && Sorted(f) && forall i | 0 <= i < |f| :: f[i] <= now
    ensures |Pushed(f, l, now)| <= Capacity(l) && Sorted(Pushed(f, l, now))
    ensures forall i | 0 <= i < |Pushed(f, l, now)| :: Pushed(f, l, now)[i] <= now
  {}

  lemma ForgotRequest(q: seq<int>, f: seq<int>, l: Limit, expiration: int, now: int)
    requires Forgot(q, f, l, expiration, now) && l.max >= 0 && l.duration <= expiration + 1
    ensures Accepts(q, l, now) == Accepts(f, l, now)
    ensures Forgot(Pushed(q, l, now), Pushed(f, l, now), l, expiration, now)
  {
    if |q| == |f| {
      assert q == f;
      PushedSorted(f, l, now);
    } else {
      assert now - f[0] > expiration;
      if |f| < l.max {
        ForgotAppend(q, f, l, expiration, now);
      } else {
        ForgotShift(q, f, l, expiration, now);
      }
    }
  }

  lemma ForgotSweep(q: seq<int>, f: seq<int>, l: Limit, expiration: int, now: int)
    requires Forgot(q, f, l, expiration, now) && Idle(q, expiration, now)
    ensures Forgot([], f, l, expiration, now)
  {
    if q != [] {
      assert q[|q| - 1] == f[|f| - 1];
      forall i | 0 <= i < |f| ensures now - f[i] > expiration {}
    }
  }

  lemma QueueNext(st: Store, e: Event, limits: Limits, expiration: int, sweeping: bool, key: string)
    ensures Queue(Next(st, e, limits, expiration, sweeping), key)
         == if e.Request? && e.key == key then Pushed(Queue(st, key), limits(key), e.now)
            else if e.Sweep? && sweeping && Idle(Queue(st, key), expiration, e.now) then []
            else Queue(st, key)
  {}

  lemma StepForgot(st: Store, full: Store, e: Event, limits: Limits, expiration: int, now: int, key: string)
    requires Forgot(Queue(st, key), Queue(full, key), limits(key), expiration, now) && now <= e.now
    requires limits(key).max >= 0 && limits(key).duration <= expiration + 1
    ensures e.Request? && e.key == key ==> Decision(st, e, limits) == Decision(full, e, limits)
    ensures Forgot(Queue(Next(st, e, limits, expiration, true), key), Queue(Next(full, e, limits, expiration, false), key), limits(key), expiration, e.now)
  {
    var q, f, l := Queue(st, key), Queue(full, key), limits(key);
    QueueNext(st, e, limits, expiration, true, key);
    QueueNext(full, e, limits, expiration, false, key);
    ForgotLater(q, f, l, expiration, now, e.now);
    if e.Request? && e.key == key {
      ForgotRequest(q, f, l, expiration, e.now);
    } else if e.Sweep? && Idle(q, expiration, e.now) {
      ForgotSweep(q, f, l, expiration, e.now);
    }
  }

  lemma StepRelated(st: Store, full: Store, e: Event, limits: Limits, expiration: int, now: int)
    requires Related(st, full, limits, expiration, now) && now <= e.now
    requires forall key :: limits(key).max >= 0 && limits(key).duration <= expiration + 1
    ensures Decision(st, e, limits) == Decision(full, e, limits)
    ensures Related(Next(st, e, limits, expiration, true), Next(full, e, limits, expiration, false), limits, expiration, e.now)
  {
    if e.Request? { StepForgot(st, full, e, limits, expiration, now, e.key); }
    forall key
      ensures Forgot(Queue(Next(st, e, limits, expiration, true), key), Queue(Next(full, e, limits, expiration, false), key), limits(key), expiration, e.now)
    {
      StepForgot(st, full, e, limits, expiration, now, key);
    }
  }

  lemma {:induction false} SweeperUnobservable(st: Store, full: Store, es: seq<Event>, limits: Limits, expiration: int, now: int)
    requires Related(st, full, limits, expiration, now) && Timed(now, es)
    requires forall key :: limits(key).max >= 0 && limits(key).duration <= expiration + 1
    ensures Decisions(st, es, limits, expiration, true) == Decisions(full, es, limits, expiration, false)
    decreases |es|
  {
    if es != [] {
      TimedTail(now, es);
      StepRelated(st, full, es[0], limits, expiration, now);
      SweeperUnobservable(Next(st, es[0], limits, expiration, true), Next(full, es[0], limits, expiration, false),
                          es[1..], limits, expiration, es[0].now);
    }
  }

  /** Fill the window at time 0, sweep as soon as the sweeper may, ask again. */
  function Burst(key: string, n: nat): seq<Event> {
    seq(n, _ => Request(key, 0))
  }

  function Exposing(key: string, l: Limit, expiration: int): seq<Event> {
    Burst(key, Capacity(l)) + [Sweep(expiration + 1), Request(key, expiration + 1)]
  }

  lemma {:induction false} AfterBurst(st: Store, key: string, n: nat, rest: seq<Event>, limits: Limits, expiration: int, sweeping: bool)
    requires |Queue(st, key)| + n <= Capacity(limits(key)) && limits(key).max >= 0
    requires forall i | 0 <= i < |Queue(st, key)| :: Queue(st, key)[i] == 0
    ensures exists st' ::
              && |Queue(st', key)| == |Queue(st, key)| + n
              && (forall i | 0 <= i < |Queue(st', key)| :: Queue(st', key)[i] == 0)
              && |Decisions(st', rest, limits, expiration, sweeping)| == |rest|
              && Decisions(st, Burst(key, n) + rest, limits, expiration, sweeping)[n..] == Decisions(st', rest, limits, expiration, sweeping)
    decreases n
  {
    var es := Burst(key, n) + rest;
    if n == 0 {
      assert es == rest;
    } else {
      assert es[1..] == Burst(key, n - 1) + rest;
      var next := Next(st, es[0], limits, expiration, sweeping);
      AfterBurst(next, key, n - 1, rest, limits, expiration, sweeping);
      assert Decisions(st, es, limits, expiration, sweeping)[1..] == Decisions(next, es[1..], limits, expiration, sweeping);
    }
  }

  lemma AfterSweep(st: Store, key: string, limits: Limits, expiration: nat)
    requires limits(key).max >= 0 && limits(key).duration > expiration + 1
    requires |Queue(st, key)| == Capacity(limits(key)) && forall i | 0 <= i < |Queue(st, key)| :: Queue(st, key)[i] == 0
    ensures var rest := [Sweep(expiration + 1), Request(key, expiration + 1)];
            Decisions(st, rest, limits, expiration, true)[1] && !Decisions(st, rest, limits, expiration, false)[1]
  {
    var rest := [Sweep(expiration + 1), Request(key, expiration + 1)];
    assert rest[1..] == [Request(key, expiration + 1)];
    QueueNext(st, rest[0], limits, expiration, true, key);
    QueueNext(st, rest[0], limits, expiration, false, key);
  }

  lemma ExposingDiffers(key: string, limits: Limits, expiration: nat)
    requires limits(key).max >= 0 && limits(key).duration > expiration + 1
    ensures Timed(0, Exposing(key, limits(key), expiration))
    ensures Decisions(map[], Exposing(key, limits(key), expiration), limits, expiration, true)
         != Decisions(map[], Exposing(key, limits(key), expiration), limits, expiration, false)
  {
    var n, es := Capacity(limits(key)), Exposing(key, limits(key), expiration);
    var rest := [Sweep(expiration + 1), Request(key, expiration + 1)];
    assert Decisions(map[], es, limits, expiration, true)[n..][1] by {
      AfterBurst(map[], key, n, rest, limits, expiration, true);
      var st :| |Queue(st, key)| == n && (forall i | 0 <= i < |Queue(st, key)| :: Queue(st, key)[i] == 0)
                && Decisions(map[], es, limits, expiration, true)[n..] == Decisions(st, rest, limits, expiration, true);
      AfterSweep(st, key, limits, expiration);
    }
    assert !Decisions(map[], es, limits, expiration, false)[n..][1] by {
      AfterBurst(map[], key, n, rest, limits, expiration, false);
      var st :| |Queue(st, key)| == n && (forall i | 0 <= i < |Queue(st, key)| :: Queue(st, key)[i] == 0)
                && Decisions(map[], es, limits, expiration, false)[n..] == Decisions(st, rest, limits, expiration, false);
      AfterSweep(st, key, limits, expiration);
    }
  }

  /** From an empty store, the sweeper changes no decision in any run exactly when no key has a
      window more than one second longer than the expiry. */
  lemma SweeperUnobservableIff(limits: Limits, expiration: nat)
    requires forall key :: limits(key).max >= 0
    ensures (forall es | Timed(0, es) :: Decisions(map[], es, limits, expiration, true) == Decisions(map[], es, limits, expiration, false))
            <==> (forall key :: limits(key).duration <= expiration + 1)
  {
    if forall key :: limits(key).duration <= expiration + 1 {
      forall es | Timed(0, es)
        ensures Decisions(map[], es, limits, expiration, true) == Decisions(map[], es, limits, expiration, false)
      {
        SweeperUnobservable(map[], map[], es, limits, expiration, 0);
      }
    } else {
      var key :| limits(key).duration > expiration + 1;
      ExposingDiffers(key, limits, expiration);
    }
  }

  // ---- The window ----

  /** How many of the times are less than `duration` before `now`. */
  function InWindow(acc: seq<int>, duration: int, now: int): nat {
    if acc == [] then 0
    else InWindow(acc[..|acc| - 1], duration, now) + if now - acc[|acc| - 1] < duration then 1 else 0
  }

  /** The reference limiter keeps every accepted time and counts. */
  predicate RefAccepts(acc: seq<int>, l: Limit, now: int) {
    InWindow(acc, l.duration, now) < Capacity(l)
  }

  function RefNext(log: Store, e: Event, limits: Limits): Store {
    if e.Request? && RefAccepts(Queue(log, e.key), limits(e.key), e.now)
    then log[e.key := Queue(log, e.key) + [e.now]]
    else log
  }

  function RefDecisions(log: Store, es: seq<Event>, limits: Limits): (ds: seq<bool>)
    ensures |ds| == |es|
    decreases |es|
  {
    if es == [] then []
    else [es[0].Request? ==> RefAccepts(Queue(log, es[0].key), limits(es[0].key), es[0].now)]
         + RefDecisions(RefNext(log, es[0], limits), es[1..], limits)
  }

  lemma {:induction false} InWindowBounds(acc: seq<int>, duration: int, now: int, k: nat)
    requires Sorted(acc) && k <= |acc|
    ensures k < |acc| && now - acc[k] < duration ==> InWindow(acc, duration, now) >= |acc| - k
    ensures k > 0 && now - acc[k - 1] >= duration ==> InWindow(acc, duration, now) <= |acc| - k
  {
    if acc != [] {
      var front := acc[..|acc| - 1];
      if k < |acc| {
        InWindowBounds(front, duration, now, k);
      } else {
        InWindowBounds(front, duration, now, k - 1);
        if now - acc[k - 1] >= duration && k > 1 { assert now - front[k - 2] >= duration; }
      }
    }
  }

  /** Looking at one queue element decides the count. */
  lemma CountIsOneLookup(acc: seq<int>, l: Limit, now: int)
    requires Sorted(acc)
    ensures RefAccepts(acc, l, now) <==> |acc| < Capacity(l) || now - acc[|acc| - Capacity(l)] >= l.duration
  {
    var c := Capacity(l);
    if |acc| < c {
      InWindowBounds(acc, l.duration, now, 0);
      InWindowAtMost(acc, l.duration, now);
    } else {
      var k := |acc| - c;
      InWindowBounds(acc, l.duration, now, k);
      InWindowBounds(acc, l.duration, now, k + 1);
    }
  }

  lemma {:induction false} InWindowAtMost(acc: seq<int>, duration: int, now: int)
    ensures InWindow(acc, duration, now) <= |acc|
  {
    if acc != [] { InWindowAtMost(acc[..|acc| - 1], duration, now); }
  }

  ghost predicate KeepsLast(f: seq<int>, acc: seq<int>, l: Limit, now: int) {
    && |f| <= |acc| && f == acc[|acc| - |f|..] && |f| == (if |acc| < Capacity(l) then |acc| else Capacity(l))
    && Sorted(acc) && (forall i | 0 <= i < |acc| :: acc[i] <= now)
  }

  lemma KeepsLastAppend(f: seq<int>, acc: seq<int>, l: Limit, now: int)
    requires KeepsLast(f, acc, l, now) && |acc| < Capacity(l)
    ensures KeepsLast(f + [now], acc + [now], l, now)
  {
    assert f == acc;
  }

  lemma KeepsLastShift(f: seq<int>, acc: seq<int>, l: Limit, now: int)
    requires KeepsLast(f, acc, l, now) && |acc| >= Capacity(l)
    ensures KeepsLast(f[1..] + [now], acc + [now], l, now)
  {}

  lemma KeepsLastRequest(f: seq<int>, acc: seq<int>, l: Limit, now: int)
    requires KeepsLast(f, acc, l, now) && l.max >= 0
    ensures Accepts(f, l, now) == RefAccepts(acc, l, now)
    ensures KeepsLast(Pushed(f, l, now), if RefAccepts(acc, l, now) then acc + [now] else acc, l, now)
  {
    CountIsOneLookup(acc, l, now);
    if |acc| < Capacity(l) {
      KeepsLastAppend(f, acc, l, now);
    } else {
      assert f[0] == acc[|acc| - Capacity(l)];
      KeepsLastShift(f, acc, l, now);
    }
  }

  ghost predicate Logged(full: Store, log: Store, limits: Limits, now: int) {
    forall key :: KeepsLast(Queue(full, key), Queue(log, key), limits(key), now)
  }

  /** One step of the reference limiter appends exactly what it accepts. */
  lemma LogAppends(log: Store, e: Event, limits: Limits, key: string)
    ensures Queue(RefNext(log, e, limits), key)
         == if e.Request? && e.key == key && RefAccepts(Queue(log, key), limits(key), e.now)
            then Queue(log, key) + [e.now] else Queue(log, key)
  {}

  lemma KeepsLastLater(f: seq<int>, acc: seq<int>, l: Limit, now: int, now': int)
    requires KeepsLast(f, acc, l, now) && now <= now'
    ensures KeepsLast(f, acc, l, now')
  {}

  lemma StepKeepsLast(full: Store, log: Store, e: Event, limits: Limits, expiration: int, now: int, key: string)
    requires KeepsLast(Queue(full, key), Queue(log, key), limits(key), now) && now <= e.now && limits(key).max >= 0
    ensures e.Request? && e.key == key ==>
              Accepts(Queue(full, key), limits(key), e.now) == RefAccepts(Queue(log, key), limits(key), e.now)
    ensures KeepsLast(Queue(Next(full, e, limits, expiration, false), key), Queue(RefNext(log, e, limits), key), limits(key), e.now)
  {
    var f, acc, l := Queue(full, key), Queue(log, key), limits(key);
    var f', acc' := Queue(Next(full, e, limits, expiration, false), key), Queue(RefNext(log, e, limits), key);
    KeepsLastLater(f, acc, l, now, e.now);
    if e.Request? && e.key == key {
      assert f' == Pushed(f, l, e.now) by { QueueNext(full, e, limits, expiration, false, key); }
      assert acc' == if RefAccepts(acc, l, e.now) then acc + [e.now] else acc by { LogAppends(log, e, limits, key); }
      KeepsLastRequest(f, acc, l, e.now);
    } else {
      assert f' == f by { QueueNext(full, e, limits, expiration, false, key); }
      assert acc' == acc by { LogAppends(log, e, limits, key); }
    }
  }

  lemma StepLogged(full: Store, log: Store, e: Event, limits: Limits, expiration: int, now: int)
    requires Logged(full, log, limits, now) && now <= e.now && forall key :: limits(key).max >= 0
    ensures e.Request? ==> Accepts(Queue(full, e.key), limits(e.key), e.now) == RefAccepts(Queue(log, e.key), limits(e.key), e.now)
    ensures Logged(Next(full, e, limits, expiration, false), RefNext(log, e, limits), limits, e.now)
  {
    if e.Request? { StepKeepsLast(full, log, e, limits, expiration, now, e.key); }
    forall key
      ensures KeepsLast(Queue(Next(full, e, limits, expiration, false), key), Queue(RefNext(log, e, limits), key), limits(key), e.now)
    {
      StepKeepsLast(full, log, e, limits, expiration, now, key);
    }
  }

  lemma {:induction false} FullIsReference(full: Store, log: Store, es: seq<Event>, limits: Limits, expiration: int, now: int)
    requires Logged(full, log, limits, now) && Timed(now, es) && forall key :: limits(key).max >= 0
    ensures Decisions(full, es, limits, expiration, false) == RefDecisions(log, es, limits)
    decreases |es|
  {
    if es != [] {
      TimedTail(now, es);
      StepLogged(full, log, es[0], limits, expiration, now);
      FullIsReference(Next(full, es[0], limits, expiration, false), RefNext(log, es[0], limits), es[1..], limits, expiration, es[0].now);
    }
  }

  /** The limiter, sweeper included, accepts exactly when fewer than the maximum were accepted
      in the window: it refines the limiter that keeps everything and counts. */
  lemma LimiterIsSlidingWindow(es: seq<Event>, limits: Limits, expiration: nat)
    requires Timed(0, es) && forall key :: limits(key).max >= 0 && limits(key).duration <= expiration + 1
    ensures Decisions(map[], es, limits, expiration, true) == RefDecisions(map[], es, limits)
  {
    SweeperUnobservable(map[], map[], es, limits, expiration, 0);
    FullIsReference(map[], map[], es, limits, expiration, 0);
  }

  /** The times at which requests for `key` were accepted. */
  function AcceptedTimes(es: seq<Event>, ds: seq<bool>, key: string): seq<int>
    requires |ds| == |es|
  {
    if es == [] then []
    else (if es[0].Request? && es[0].key == key && ds[0] then [es[0].now] else []) + AcceptedTimes(es[1..], ds[1..], key)
  }

  ghost predicate Spaced(acc: seq<int>, l: Limit) {
    forall i | 0 <= i && i + Capacity(l) < |acc| :: acc[i + Capacity(l)] - acc[i] >= l.duration
  }

  lemma SpacedNext(acc: seq<int>, l: Limit, now: int)
    requires Sorted(acc) && Spaced(acc, l) && RefAccepts(acc, l, now)
    ensures Spaced(acc + [now], l)
  {
    CountIsOneLookup(acc, l, now);
  }

  lemma AcceptedNext(log: Store, log': Store, es: seq<Event>, limits: Limits, key: string)
    requires es != [] && log' == RefNext(log, es[0], limits)
    ensures Queue(log, key) + AcceptedTimes(es, RefDecisions(log, es, limits), key)
         == Queue(log', key) + AcceptedTimes(es[1..], RefDecisions(log', es[1..], limits), key)
  {
    var e, ds, tail := es[0], RefDecisions(log, es, limits), RefDecisions(log', es[1..], limits);
    assert ds[1..] == tail;
    var head := if e.Request? && e.key == key && ds[0] then [e.now] else [];
    assert Queue(log', key) == Queue(log, key) + head by {
      LogAppends(log, e, limits, key);
      assert Queue(log, key) + [] == Queue(log, key);
    }
    AppendAssociates(Queue(log, key), head, AcceptedTimes(es[1..], tail, key));
  }

  lemma AppendAssociates(a: seq<int>, b: seq<int>, c: seq<int>)
    ensures a + (b + c) == (a + b) + c
  {}

  /** The accepted requests of one key up to `now`. */
  ghost predicate IsLog(acc: seq<int>, l: Limit, now: int) {
    Sorted(acc) && Spaced(acc, l) && forall i | 0 <= i < |acc| :: acc[i] <= now
  }

  lemma LogNext(log: Store, e: Event, limits: Limits, key: string, now: int)
    requires IsLog(Queue(log, key), limits(key), now) && now <= e.now
    ensures IsLog(Queue(RefNext(log, e, limits), key), limits(key), e.now)
  {
    LogAppends(log, e, limits, key);
    if e.Request? && e.key == key && RefAccepts(Queue(log, key), limits(key), e.now) {
      SpacedNext(Queue(log, key), limits(key), e.now);
    }
  }

  lemma {:induction false} ReferenceSpaced(log: Store, es: seq<Event>, limits: Limits, key: string, now: int)
    requires Timed(now, es) && IsLog(Queue(log, key), limits(key), now)
    ensures Spaced(Queue(log, key) + AcceptedTimes(es, RefDecisions(log, es, limits), key), limits(key))
    decreases |es|
  {
    if es == [] {
      assert Queue(log, key) + [] == Queue(log, key);
    } else {
      TimedTail(now, es);
      LogNext(log, es[0], limits, key, now);
      ReferenceSpaced(RefNext(log, es[0], limits), es[1..], limits, key, es[0].now);
      AcceptedNext(log, RefNext(log, es[0], limits), es, limits, key);
    }
  }

  /** In every run of the limiter with its sweeper, for each key, the (i + max)-th accepted request
      comes at least `duration` after the i-th. */
  lemma WindowBound(es: seq<Event>, limits: Limits, expiration: nat, key: string)
    requires Timed(0, es) && forall k :: limits(k).max >= 0 && limits(k).duration <= expiration + 1
    ensures Spaced(AcceptedTimes(es, Decisions(map[], es, limits, expiration, true), key), limits(key))
  {
    LimiterIsSlidingWindow(es, limits, expiration);
    ReferenceSpaced(map[], es, limits, key, 0);
    var acc := AcceptedTimes(es, RefDecisions(map[], es, limits), key);
    assert Queue(map[], key) + acc == acc;
  }

  /** A request is refused only if the maximum number of requests were accepted less than
      `duration` before it. */
  lemma {:induction false} RefusedMeansFull(log: Store, es: seq<Event>, limits: Limits, i: nat)
    requires i < |es| && es[i].Request? && !RefDecisions(log, es, limits)[i]
    ensures var acc := Queue(log, es[i].key) + AcceptedTimes(es[..i], RefDecisions(log, es[..i], limits), es[i].key);
            InWindow(acc, limits(es[i].key).duration, es[i].now) >= Capacity(limits(es[i].key))
    decreases |es|
  {
    var key := es[i].key;
    if i == 0 {
      assert Queue(log, key) + [] == Queue(log, key);
    } else {
      var log' := RefNext(log, es[0], limits);
      assert RefDecisions(log, es, limits)[i] == RefDecisions(log', es[1..], limits)[i - 1];
      RefusedMeansFull(log', es[1..], limits, i - 1);
      assert es[1..][..i - 1] == es[..i][1..];
      AcceptedNext(log, log', es[..i], limits, key);
    }
  }

  lemma {:induction false} RefDecisionsPrefix(log: Store, es: seq<Event>, limits: Limits, i: nat)
    requires i <= |es|
    ensures RefDecisions(log, es[..i], limits) == RefDecisions(log, es, limits)[..i]
    decreases |es|
  {
    if i > 0 {
      assert es[..i][1..] == es[1..][..i - 1];
      RefDecisionsPrefix(RefNext(log, es[0], limits), es[1..], limits, i - 1);
    }
  }

  lemma RefusalIsJustified(es: seq<Event>, limits: Limits, expiration: nat, i: nat)
    requires Timed(0, es) && forall k :: limits(k).max >= 0 && limits(k).duration <= expiration + 1
    requires i < |es| && es[i].Request? && !Decisions(map[], es, limits, expiration, true)[i]
    ensures var ds := Decisions(map[], es, limits, expiration, true);
            InWindow(AcceptedTimes(es[..i], ds[..i], es[i].key), limits(es[i].key).duration, es[i].now) >= Capacity(limits(es[i].key))
  {
    LimiterIsSlidingWindow(es, limits, expiration);
    RefusedMeansFull(map[], es, limits, i);
    RefDecisionsPrefix(map[], es, limits, i);
    var acc := AcceptedTimes(es[..i], RefDecisions(map[], es, limits)[..i], es[i].key);
    assert Queue(map[], es[i].key) + acc == acc;
  }
}
