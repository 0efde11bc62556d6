/**
Top-up settlement on top of the order lock: the payment callback of controller/topup.go
(`EpayNotify`), the Stripe failure and expiry handlers of controller/topup_stripe.go and the
administrator's completion, any number of each running at once, with database writes that
may fail. New orders may be inserted at any moment, without the lock.
*/
module Settlement {
  import opened Base
  import L = OrderLock

  type Tid = L.Tid
  type Trade = L.Trade

  datatype Provider = Epay | Stripe | OtherProvider
  datatype Status = Pending | Success | Failed | Expired

  datatype Order = Order(user: int, amount: int, money: real, payMethod: string, provider: Provider, status: Status)

  /** Which handler a goroutine runs once it holds the lock. */
  datatype Kind =
    | EpayNotify(payType: string)   // controller/topup.go:373-408
    | PaymentFailed                 // controller/topup_stripe.go:231-256
    | SessionExpired                // controller/topup_stripe.go:306-316
    | AdminComplete                 // controller/topup.go:503-506

  /** What a handler is about to do: its read, its write of the row it prepared, its credit. */
  datatype Work = Start(kind: Kind) | Save(kind: Kind, row: Order) | Credit(row: Order) | Done

  /** `credits` is the history of successful credits; `lost` holds the orders saved as
      successful whose credit was refused. */
  datatype State = State(
    lock: L.State,
    work: map<Tid, Work>,
    orders: map<Trade, Order>,
    quota: map<int, int>,
    credits: seq<Trade>,
    lost: set<Trade>,
    quotaPerUnit: real)

  datatype Event =
    | Begin(i: Tid, trade: Trade, kind: Kind)
    | LockStep(i: Tid)
    | Act(i: Tid, ok: bool)               // ok: the database accepts the write
    | Place(trade: Trade, order: Order)

  function CreditOf(o: Order, quotaPerUnit: real): int {
    if o.provider == Stripe then Truncate(o.money * quotaPerUnit)
    else Truncate(o.amount as real * quotaPerUnit)
  }

  function Quota(s: State, user: int): int {
    if user in s.quota then s.quota[user] else 0
  }

  predicate Enabled(s: State, e: Event) {
    match e
    case Begin(i, t, k) => L.Enabled(s.lock, L.Call(i, t))
    case LockStep(i) =>
      L.Enabled(s.lock, L.Advance(i)) && (s.lock.pcs[i].line == 295 ==> i in s.work && s.work[i].Done?)
    case Act(i, _) => InHandler(s, i) && !s.work[i].Done?
    case Place(t, o) => t !in s.orders && o.status == Pending
  }

  predicate InHandler(s: State, i: Tid) {
    i in s.lock.pcs && s.lock.pcs[i].line == 295 && i in s.work
  }

  function Apply(s: State, e: Event): State
    requires Enabled(s, e)
  {
    match e
    case Begin(i, t, k) => s.(lock := L.Apply(s.lock, L.Call(i, t)), work := s.work[i := Start(k)])
    case LockStep(i) =>
      var lock := L.Apply(s.lock, L.Advance(i));
      s.(lock := lock, work := if i in lock.pcs then s.work else s.work - {i})
    case Act(i, ok) => Handle(s, i, ok)
    case Place(t, o) => s.(orders := s.orders[t := o])
  }

  function Finish(s: State, i: Tid): map<Tid, Work> {
    s.work[i := Done]
  }

  function Handle(s: State, i: Tid, ok: bool): State
    requires InHandler(s, i)
  {
    var t := s.lock.pcs[i].trade;
    match s.work[i]
    case Start(kind) =>
      if t !in s.orders || !Applies(kind, s.orders[t]) then s.(work := Finish(s, i))
      else if kind.EpayNotify? || kind.PaymentFailed? then
        s.(work := s.work[i := Save(kind, Prepared(kind, s.orders[t]))])
      else if kind.SessionExpired? then Expire(s, i, t, ok)
      else Complete(s, i, t, ok)
    case Save(kind, row) =>
      if !ok then s.(work := Finish(s, i))
      else s.(orders := s.orders[t := row],
              work := s.work[i := if kind.EpayNotify? then Credit(row) else Done])
    case Credit(row) =>
      var amount := CreditOf(row, s.quotaPerUnit);
      if ok && amount >= 0 then
        s.(quota := s.quota[row.user := Quota(s, row.user) + amount],
           credits := s.credits + [t], work := Finish(s, i))
      else s.(lost := s.lost + {t}, work := Finish(s, i))
    case Done => s
  }

  /** The checks each handler makes on the row it read. */
  predicate Applies(kind: Kind, o: Order) {
    && o.status == Pending
    && (kind.EpayNotify? ==> o.provider == Epay)
    && (kind.PaymentFailed? || kind.SessionExpired? ==> o.provider == Stripe)
  }

  /** The row a handler writes back: the callback also records the method really used. */
  function Prepared(kind: Kind, o: Order): Order
    requires kind.EpayNotify? || kind.PaymentFailed?
  {
    if kind.EpayNotify? then o.(payMethod := kind.payType, status := Success) else o.(status := Failed)
  }

  /** UpdatePendingTopUpStatus: one transaction. */
  function Expire(s: State, i: Tid, t: Trade, ok: bool): State
    requires t in s.orders
  {
    if ok then s.(orders := s.orders[t := s.orders[t].(status := Expired)], work := Finish(s, i))
    else s.(work := Finish(s, i))
  }

  /** ManualCompleteTopUp: one transaction that marks the order and pays it. */
  function Complete(s: State, i: Tid, t: Trade, ok: bool): State
    requires t in s.orders
  {
    var o := s.orders[t];
    var amount := CreditOf(o, s.quotaPerUnit);
    if ok && amount > 0 then
      s.(orders := s.orders[t := o.(status := Success)],
         quota := s.quota[o.user := Quota(s, o.user) + amount],
         credits := s.credits + [t], work := Finish(s, i))
    else s.(work := Finish(s, i))
  }

  ghost predicate Initial(s: State) {
    s.lock == L.Empty && s.work == map[] && s.credits == [] && s.lost == {}
  }

  ghost predicate IsRun(ss: seq<State>, es: seq<Event>) {
    && |ss| == |es| + 1
    && Initial(ss[0])
    && forall k | 0 <= k < |es| :: Enabled(ss[k], es[k]) && ss[k + 1] == Apply(ss[k], es[k])
  }

  // ---- The invariant ----

  /** A handler in mid-flight still sees the row it read: nobody else can have changed it. */
  ghost predicate WorkOk(s: State, t: Trade, w: Work) {
    match w
    case Start(_) => true
    case Save(kind, row) =>
      && t in s.orders
      && (kind.EpayNotify? || kind.PaymentFailed?)
      && Applies(kind, s.orders[t]) && row == Prepared(kind, s.orders[t])
    case Credit(row) =>
      t in s.orders && s.orders[t] == row && row.status == Success && t !in s.credits && t !in s.lost
    case Done => true
  }

  ghost predicate WorkInv(s: State) {
    && s.work.Keys == s.lock.pcs.Keys
    && forall i | i in s.work ::
         && WorkOk(s, s.lock.pcs[i].trade, s.work[i])
         && (s.lock.pcs[i].line < 295 ==> s.work[i].Start?)
         && (s.lock.pcs[i].line > 295 ==> s.work[i].Done?)
  }

  ghost predicate CreditInv(s: State) {
    && (forall a, b | 0 <= a < b < |s.credits| :: s.credits[a] != s.credits[b])
    && (forall t | t in s.credits :: t in s.orders && s.orders[t].status == Success && t !in s.lost)
    && (forall t | t in s.lost :: t in s.orders && s.orders[t].status == Success)
  }

  ghost predicate Inv(s: State) {
    L.Inv(s.lock) && WorkInv(s) && CreditInv(s)
  }

  /** Two goroutines past the lock and before its release are on different orders. */
  lemma OneHandlerPerOrder(s: State, i: Tid, j: Tid)
    requires Inv(s) && InHandler(s, i) && InHandler(s, j) && i != j
    ensures s.lock.pcs[i].trade != s.lock.pcs[j].trade
  {
    if s.lock.pcs[i].trade == s.lock.pcs[j].trade { L.InvExcludes(s.lock, i, j); }
  }

  lemma LockStepTrade(l: L.State, e: L.Event)
    requires L.Inv(l) && L.Enabled(l, e)
    ensures var l' := L.Apply(l, e);
            && (forall j | j in l'.pcs && j != e.i :: j in l.pcs && l'.pcs[j] == l.pcs[j])
            && (forall j | j in l.pcs && j != e.i :: j in l'.pcs)
            && (e.Advance? && e.i in l'.pcs ==> l'.pcs[e.i].trade == l.pcs[e.i].trade && l'.pcs[e.i].line > l.pcs[e.i].line)
            && (e.Advance? && l.pcs[e.i].line < 295 ==> e.i in l'.pcs && l'.pcs[e.i].line <= 295)
            && (e.Call? ==> e.i in l'.pcs && l'.pcs[e.i].line == 280)
  {
    L.StepMovesOne(l, e);
    if e.Advance? { L.StepMovesDown(l, e.i); }
  }

  /** What a step of the lock leaves: the other goroutines, and the mover's place. */
  ghost predicate Stepped(l: L.State, l': L.State, e: Event)
    requires e.Begin? || (e.LockStep? && e.i in l.pcs)
  {
    && (forall j | j in l'.pcs && j != e.i :: j in l.pcs && l'.pcs[j] == l.pcs[j])
    && (forall j | j in l.pcs && j != e.i :: j in l'.pcs)
    && (e.LockStep? && e.i in l'.pcs ==> l'.pcs[e.i].trade == l.pcs[e.i].trade && l'.pcs[e.i].line > l.pcs[e.i].line)
    && (e.LockStep? && l.pcs[e.i].line < 295 ==> e.i in l'.pcs && l'.pcs[e.i].line <= 295)
    && (e.Begin? ==> e.i in l'.pcs && l'.pcs[e.i].line == 280)
  }

  function WorkAfter(s: State, e: Event, l': L.State): map<Tid, Work>
    requires e.Begin? || e.LockStep?
  {
    if e.Begin? then s.work[e.i := Start(e.kind)] else if e.i in l'.pcs then s.work else s.work - {e.i}
  }

  lemma LockResult(s: State, e: Event) returns (l': L.State)
    requires L.Inv(s.lock) && Enabled(s, e) && (e.Begin? || e.LockStep?)
    ensures Apply(s, e) == s.(lock := l', work := WorkAfter(s, e, l'))
    ensures L.Inv(l') && Stepped(s.lock, l', e)
  {
    var le := if e.Begin? then L.Call(e.i, e.trade) else L.Advance(e.i);
    l' := L.Apply(s.lock, le);
    L.StepKeepsInv(s.lock, le);
    LockStepTrade(s.lock, le);
  }

  lemma LockKeepsInv(s: State, e: Event)
    requires Inv(s) && Enabled(s, e) && (e.Begin? || e.LockStep?)
    ensures Inv(Apply(s, e))
  {
    var l' := LockResult(s, e);
    SteppedKeepsInv(s, e, l');
  }

  lemma SteppedKeepsInv(s: State, e: Event, l': L.State)
    requires WorkInv(s) && CreditInv(s) && Enabled(s, e) && (e.Begin? || e.LockStep?) && Stepped(s.lock, l', e)
    ensures WorkInv(s.(lock := l', work := WorkAfter(s, e, l'))) && CreditInv(s.(lock := l', work := WorkAfter(s, e, l')))
  {
    LockKeepsWork(s, s.(lock := l', work := WorkAfter(s, e, l')), e.i);
  }

  lemma LockKeepsWork(s: State, s': State, i: Tid)
    requires WorkInv(s) && s'.orders == s.orders && s'.credits == s.credits && s'.lost == s.lost
    requires forall j | j in s'.lock.pcs && j != i :: j in s.lock.pcs && s'.lock.pcs[j] == s.lock.pcs[j]
    requires forall j | j in s.lock.pcs && j != i :: j in s'.lock.pcs
    requires forall j | j in s'.work && j != i :: j in s.work && s'.work[j] == s.work[j]
    requires forall j | j in s.work && j != i :: j in s'.work
    requires i in s'.work <==> i in s'.lock.pcs
    requires i in s'.work ==>
               || (s'.work[i].Start? && s'.lock.pcs[i].line <= 295)
               || (s'.work[i].Done? && s'.lock.pcs[i].line >= 295)
    ensures WorkInv(s')
  {
    forall j ensures j in s'.work <==> j in s'.lock.pcs {}
    assert s'.work.Keys == s'.lock.pcs.Keys;
  }

  /** What one handler step by `i` on order `t` can do, as seen from outside: it touches that
      order only, never a settled row, and pays at most the price of that order, once. */
  ghost predicate Effect(s: State, s': State, i: Tid, t: Trade) {
    && s'.lock == s.lock && s'.quotaPerUnit == s.quotaPerUnit
    && i in s.work && i in s'.work && s'.work == s.work[i := s'.work[i]]
    && WorkOk(s', t, s'.work[i])
    && s'.orders.Keys == s.orders.Keys
    && (forall u | u in s.orders && u != t :: s'.orders[u] == s.orders[u])
    && (t in s.orders ==> SameTerms(s.orders[t], s'.orders[t]) && (s.orders[t].status != Pending ==> s'.orders[t] == s.orders[t]))
    && (|| (s'.credits == s.credits && s'.quota == s.quota)
        || (t in s.orders && t !in s.credits && t !in s'.lost && s'.orders[t].status == Success
            && s'.credits == s.credits + [t]
            && s'.quota == s.quota[s.orders[t].user := Quota(s, s.orders[t].user) + CreditOf(s.orders[t], s.quotaPerUnit)]
            && (s.orders[t].status == Pending || s.work[i].Credit?)))
    && (s'.lost == s.lost || (s'.lost == s.lost + {t} && t !in s'.credits && t in s.orders && s'.orders[t].status == Success))
    && (t in s.orders && s.orders[t].status != Success && s'.orders[t].status == Success ==> t in s'.credits || s'.work[i].Credit?)
    && (s.work[i].Credit? ==> t in s'.credits || t in s'.lost)
    && (s'.work[i].Credit? ==> t in s.orders && s.orders[t].status == Pending)
  }

  ghost predicate SameTerms(o: Order, o': Order) {
    o'.user == o.user && o'.amount == o.amount && o'.money == o.money && o'.provider == o.provider
  }

  lemma StartEffect(s: State, i: Tid, ok: bool)
    requires CreditInv(s) && InHandler(s, i) && s.work[i].Start?
    ensures Effect(s, Handle(s, i, ok), i, s.lock.pcs[i].trade)
  {
    var t, kind := s.lock.pcs[i].trade, s.work[i].kind;
    if t in s.orders && Applies(kind, s.orders[t]) {
      if kind.SessionExpired? { ExpireEffect(s, i, t, ok); }
      if kind.AdminComplete? { CompleteEffect(s, i, t, ok); }
    }
  }

  lemma ExpireEffect(s: State, i: Tid, t: Trade, ok: bool)
    requires CreditInv(s) && i in s.work && s.work[i].Start? && t in s.orders && s.orders[t].status == Pending
    ensures Effect(s, Expire(s, i, t, ok), i, t)
  {}

  lemma CompleteEffect(s: State, i: Tid, t: Trade, ok: bool)
    requires CreditInv(s) && i in s.work && s.work[i].Start? && t in s.orders && s.orders[t].status == Pending
    ensures Effect(s, Complete(s, i, t, ok), i, t)
  {}

  lemma SaveEffect(s: State, i: Tid, ok: bool)
    requires CreditInv(s) && InHandler(s, i) && s.work[i].Save? && WorkOk(s, s.lock.pcs[i].trade, s.work[i])
    ensures Effect(s, Handle(s, i, ok), i, s.lock.pcs[i].trade)
  {}

  lemma CreditEffect(s: State, i: Tid, ok: bool)
    requires CreditInv(s) && InHandler(s, i) && s.work[i].Credit? && WorkOk(s, s.lock.pcs[i].trade, s.work[i])
    ensures Effect(s, Handle(s, i, ok), i, s.lock.pcs[i].trade)
  {}

  lemma ActEffect(s: State, i: Tid, ok: bool)
    requires Inv(s) && Enabled(s, Act(i, ok))
    ensures Effect(s, Apply(s, Act(i, ok)), i, s.lock.pcs[i].trade)
  {
    assert WorkOk(s, s.lock.pcs[i].trade, s.work[i]);
    match s.work[i]
    case Start(_) => StartEffect(s, i, ok);
    case Save(_, _) => SaveEffect(s, i, ok);
    case Credit(_) => CreditEffect(s, i, ok);
  }

  lemma OtherOrderUnaffected(s: State, s': State, i: Tid, t: Trade, u: Trade, w: Work)
    requires Effect(s, s', i, t) && u != t && WorkOk(s, u, w)
    ensures WorkOk(s', u, w)
  {
    assert u in s'.credits <==> u in s.credits;
  }

  /** Every other handler is on another order, so it does not notice. */
  lemma OthersUnaffected(s: State, s': State, i: Tid, j: Tid)
    requires Inv(s) && InHandler(s, i) && Effect(s, s', i, s.lock.pcs[i].trade)
    requires j in s.work && j != i
    ensures WorkOk(s', s.lock.pcs[j].trade, s.work[j])
  {
    assert WorkOk(s, s.lock.pcs[j].trade, s.work[j]);
    if s.lock.pcs[j].line == 295 {
      OneHandlerPerOrder(s, i, j);
      OtherOrderUnaffected(s, s', i, s.lock.pcs[i].trade, s.lock.pcs[j].trade, s.work[j]);
    }
  }

  lemma EffectKeepsWork(s: State, s': State, i: Tid)
    requires Inv(s) && InHandler(s, i) && Effect(s, s', i, s.lock.pcs[i].trade)
    ensures WorkInv(s')
  {
    forall j | j in s.work && j != i
      ensures WorkOk(s', s.lock.pcs[j].trade, s.work[j])
    {
      OthersUnaffected(s, s', i, j);
    }
    HandlerKeepsWork(s, s', i);
  }

  lemma HandlerKeepsWork(s: State, s': State, i: Tid)
    requires WorkInv(s) && s'.lock == s.lock && i in s.work && s.lock.pcs[i].line == 295
    requires i in s'.work && s'.work == s.work[i := s'.work[i]]
    requires WorkOk(s', s.lock.pcs[i].trade, s'.work[i])
    requires forall j | j in s.work && j != i :: WorkOk(s', s.lock.pcs[j].trade, s.work[j])
    ensures WorkInv(s')
  {}

  lemma EffectKeepsCredits(s: State, s': State, i: Tid, t: Trade)
    requires CreditInv(s) && Effect(s, s', i, t)
    ensures CreditInv(s')
  {}

  lemma ActKeepsInv(s: State, i: Tid, ok: bool)
    requires Inv(s) && Enabled(s, Act(i, ok))
    ensures Inv(Apply(s, Act(i, ok)))
  {
    ActEffect(s, i, ok);
    EffectKeepsWork(s, Apply(s, Act(i, ok)), i);
    EffectKeepsCredits(s, Apply(s, Act(i, ok)), i, s.lock.pcs[i].trade);
  }

  lemma PlaceKeepsInv(s: State, t: Trade, o: Order)
    requires Inv(s) && Enabled(s, Place(t, o))
    ensures Inv(Apply(s, Place(t, o)))
  {
    var s' := Apply(s, Place(t, o));
    forall j | j in s'.work
      ensures WorkOk(s', s'.lock.pcs[j].trade, s'.work[j])
    {
      assert WorkOk(s, s.lock.pcs[j].trade, s.work[j]);
    }
  }

  lemma StepKeepsInv(s: State, e: Event)
    requires Inv(s) && Enabled(s, e)
    ensures Inv(Apply(s, e))
  {
    match e
    case Begin(_, _, _) => LockKeepsInv(s, e);
    case LockStep(_) => LockKeepsInv(s, e);
    case Act(i, ok) => ActKeepsInv(s, i, ok);
    case Place(t, o) => PlaceKeepsInv(s, t, o);
  }

  lemma {:induction false} RunKeepsInv(ss: seq<State>, es: seq<Event>, k: nat)
    requires IsRun(ss, es) && k < |ss|
    ensures Inv(ss[k])
  {
    if k > 0 {
      RunKeepsInv(ss, es, k - 1);
      StepKeepsInv(ss[k - 1], es[k - 1]);
    }
  }

  // ---- Orders are settled once ----

  /** One step keeps every order's owner, price and provider, and the whole row once it is
      no longer pending. */
  lemma StepKeepsOrders(s: State, e: Event, t: Trade)
    requires Inv(s) && Enabled(s, e) && t in s.orders
    ensures var s' := Apply(s, e);
            && t in s'.orders
            && SameTerms(s.orders[t], s'.orders[t])
            && (s.orders[t].status != Pending ==> s'.orders[t] == s.orders[t])
  {
    if e.Act? { ActEffect(s, e.i, e.ok); }
  }

  /** An order leaves `pending` at most once, and never changes afterwards. */
  lemma {:induction false} SettledIsFinal(ss: seq<State>, es: seq<Event>, j: nat, k: nat, t: Trade)
    requires IsRun(ss, es) && j <= k < |ss|
    requires t in ss[j].orders && ss[j].orders[t].status != Pending
    ensures t in ss[k].orders && ss[k].orders[t] == ss[j].orders[t]
    decreases k
  {
    if j < k {
      SettledIsFinal(ss, es, j, k - 1, t);
      RunKeepsInv(ss, es, k - 1);
      StepKeepsOrders(ss[k - 1], es[k - 1], t);
    }
  }

  /** In every run no order is credited twice, and only successful orders are credited. */
  lemma CreditedAtMostOnce(ss: seq<State>, es: seq<Event>, k: nat, t: Trade)
    requires IsRun(ss, es) && k < |ss|
    ensures multiset(ss[k].credits)[t] <= 1
    ensures t in ss[k].credits ==> t in ss[k].orders && ss[k].orders[t].status == Success
  {
    RunKeepsInv(ss, es, k);
    DistinctCount(ss[k].credits, t);
  }

  lemma {:induction false} DistinctCount(xs: seq<Trade>, t: Trade)
    requires forall a, b | 0 <= a < b < |xs| :: xs[a] != xs[b]
    ensures multiset(xs)[t] <= 1
  {
    if xs != [] {
      var front, last := xs[..|xs| - 1], xs[|xs| - 1];
      assert xs == front + [last];
      DistinctCount(front, t);
      assert last !in front;
    }
  }

  // ---- The books balance ----

  ghost function Owed(ts: set<Trade>, orders: map<Trade, Order>, quotaPerUnit: real): int
    requires ts <= orders.Keys
  {
    if ts == {} then 0
    else
      var t :| t in ts;
      CreditOf(orders[t], quotaPerUnit) + Owed(ts - {t}, orders, quotaPerUnit)
  }

  lemma {:induction false} OwedAdd(ts: set<Trade>, t: Trade, orders: map<Trade, Order>, q: real)
    requires ts <= orders.Keys && t in ts
    ensures Owed(ts, orders, q) == CreditOf(orders[t], q) + Owed(ts - {t}, orders, q)
  {
    var u :| u in ts && Owed(ts, orders, q) == CreditOf(orders[u], q) + Owed(ts - {u}, orders, q);
    if u != t {
      OwedAdd(ts - {u}, t, orders, q);
      OwedAdd(ts - {t}, u, orders, q);
      assert ts - {u} - {t} == ts - {t} - {u};
    }
  }

  lemma {:induction false} OwedSame(ts: set<Trade>, orders: map<Trade, Order>, orders': map<Trade, Order>, q: real)
    requires ts <= orders.Keys && ts <= orders'.Keys
    requires forall t | t in ts :: CreditOf(orders[t], q) == CreditOf(orders'[t], q)
    ensures Owed(ts, orders, q) == Owed(ts, orders', q)
  {
    if ts != {} {
      var t :| t in ts;
      OwedAdd(ts, t, orders, q);
      OwedAdd(ts, t, orders', q);
      OwedSame(ts - {t}, orders, orders', q);
    }
  }

  ghost function Paid(s: State, user: int): set<Trade> {
    set t | t in s.credits && t in s.orders && s.orders[t].user == user
  }

  /** The orders that are successful now and were not when the run began. */
  ghost function Settled(s0: State, s: State, user: int): set<Trade> {
    set t | t in s.orders && s.orders[t].user == user && s.orders[t].status == Success
            && !(t in s0.orders && s0.orders[t].status == Success)
  }

  ghost predicate InFlight(s: State, t: Trade) {
    exists i :: i in s.work && i in s.lock.pcs && s.work[i].Credit? && s.lock.pcs[i].trade == t
  }

  ghost predicate Balanced(s0: State, s: State, user: int) {
    && s.quotaPerUnit == s0.quotaPerUnit
    && Quota(s, user) == Quota(s0, user) + Owed(Paid(s, user), s.orders, s.quotaPerUnit)
  }

  lemma PaidAfter(s: State, s': State, i: Tid, t: Trade, user: int)
    requires CreditInv(s) && Effect(s, s', i, t)
    ensures s'.credits != s.credits ==> t in s.orders && t !in Paid(s, user)
    ensures Paid(s', user) == if s'.credits != s.credits && s.orders[t].user == user then Paid(s, user) + {t} else Paid(s, user)
    ensures forall u | u in Paid(s, user) :: s'.orders[u] == s.orders[u]
    ensures Quota(s', user) == Quota(s, user) + if s'.credits != s.credits && s.orders[t].user == user then CreditOf(s.orders[t], s.quotaPerUnit) else 0
    ensures t in s.orders ==> t in s'.orders && SameTerms(s.orders[t], s'.orders[t])
  {}

  lemma SameTermsSameCredit(o: Order, o': Order, q: real)
    requires SameTerms(o, o')
    ensures CreditOf(o', q) == CreditOf(o, q)
  {}

  lemma OwedAfter(paid: set<Trade>, t: Trade, orders: map<Trade, Order>, orders': map<Trade, Order>, q: real)
    requires paid <= orders.Keys && paid <= orders'.Keys && t !in paid && t in orders && t in orders'
    requires (forall u | u in paid :: orders'[u] == orders[u]) && SameTerms(orders[t], orders'[t])
    ensures Owed(paid + {t}, orders', q) == Owed(paid, orders, q) + CreditOf(orders[t], q)
  {
    var more := paid + {t};
    SameTermsSameCredit(orders[t], orders'[t], q);
    assert more - {t} == paid;
    assert Owed(more, orders', q) == CreditOf(orders'[t], q) + Owed(more - {t}, orders', q) by { OwedAdd(more, t, orders', q); }
    assert Owed(paid, orders, q) == Owed(paid, orders', q) by { OwedSame(paid, orders, orders', q); }
  }

  lemma PayBalances(s0: State, s: State, s': State, i: Tid, t: Trade, user: int)
    requires CreditInv(s) && Effect(s, s', i, t) && Balanced(s0, s, user)
    ensures Balanced(s0, s', user)
  {
    PaidAfter(s, s', i, t, user);
    assert s'.quotaPerUnit == s.quotaPerUnit && s'.orders.Keys == s.orders.Keys;
    if s'.credits != s.credits && s.orders[t].user == user {
      OwedAfter(Paid(s, user), t, s.orders, s'.orders, s.quotaPerUnit);
    } else {
      OwedSame(Paid(s, user), s.orders, s'.orders, s.quotaPerUnit);
    }
  }

  lemma StepBalances(s0: State, s: State, e: Event, user: int)
    requires Inv(s) && Enabled(s, e) && Balanced(s0, s, user)
    ensures Balanced(s0, Apply(s, e), user)
  {
    if e.Act? {
      ActEffect(s, e.i, e.ok);
      PayBalances(s0, s, Apply(s, e), e.i, s.lock.pcs[e.i].trade, user);
    } else {
      var s' := Apply(s, e);
      assert Paid(s', user) == Paid(s, user);
      OwedSame(Paid(s, user), s.orders, s'.orders, s.quotaPerUnit);
    }
  }

  /** At every moment of every run, a user's quota is the opening quota plus the price of
      the orders credited to that user. */
  lemma {:induction false} QuotaIsCredits(ss: seq<State>, es: seq<Event>, k: nat, user: int)
    requires IsRun(ss, es) && k < |ss|
    ensures Balanced(ss[0], ss[k], user)
  {
    if k == 0 {
      assert Paid(ss[0], user) == {};
    } else {
      QuotaIsCredits(ss, es, k - 1, user);
      RunKeepsInv(ss, es, k - 1);
      StepBalances(ss[0], ss[k - 1], es[k - 1], user);
    }
  }

  /** Every order that became successful was credited, is about to be, or had its credit refused. */
  ghost predicate Accounted(s0: State, s: State, t: Trade) {
    t in s.orders && s.orders[t].status == Success && !(t in s0.orders && s0.orders[t].status == Success)
    ==> t in s.credits || t in s.lost || InFlight(s, t)
  }

  lemma ActAccounts(s0: State, s: State, s': State, i: Tid, h: Trade, t: Trade)
    requires InHandler(s, i) && h == s.lock.pcs[i].trade && Effect(s, s', i, h) && Accounted(s0, s, t)
    ensures Accounted(s0, s', t)
  {
    if s'.work[i].Credit? { assert InFlight(s', h); }
    if InFlight(s, t) {
      var j :| j in s.work && j in s.lock.pcs && s.work[j].Credit? && s.lock.pcs[j].trade == t;
      assert j != i ==> s'.work[j] == s.work[j];
    }
  }

  lemma CreditingStays(s: State, e: Event, j: Tid)
    requires WorkInv(s) && Enabled(s, e) && (e.Begin? || e.LockStep?) && j in s.work && s.work[j].Credit?
    ensures j in s.lock.pcs && j != e.i
  {}

  lemma SteppedKeepsFlight(s: State, e: Event, l': L.State, t: Trade)
    requires WorkInv(s) && Enabled(s, e) && (e.Begin? || e.LockStep?) && Stepped(s.lock, l', e)
    ensures InFlight(s, t) ==> InFlight(s.(lock := l', work := WorkAfter(s, e, l')), t)
    ensures InFlight(s.(lock := l', work := WorkAfter(s, e, l')), t) ==> InFlight(s, t)
  {
    var s' := s.(lock := l', work := WorkAfter(s, e, l'));
    if InFlight(s, t) {
      var j :| j in s.work && j in s.lock.pcs && s.work[j].Credit? && s.lock.pcs[j].trade == t;
      CreditingStays(s, e, j);
      StaysInFlight(s, s', j);
    }
    if InFlight(s', t) {
      var j :| j in s'.work && j in s'.lock.pcs && s'.work[j].Credit? && s'.lock.pcs[j].trade == t;
      assert j in s.work && s.work[j] == s'.work[j];
      CreditingStays(s, e, j);
    }
  }

  lemma LockAccounts(s: State, e: Event, t: Trade)
    requires Inv(s) && Enabled(s, e) && (e.Begin? || e.LockStep?)
    ensures InFlight(Apply(s, e), t) <==> InFlight(s, t)
  {
    var l' := LockResult(s, e);
    SteppedKeepsFlight(s, e, l', t);
  }

  lemma StaysInFlight(s: State, s': State, j: Tid)
    requires j in s.work && j in s.lock.pcs && s.work[j].Credit?
    requires j in s'.work && s'.work[j] == s.work[j] && j in s'.lock.pcs && s'.lock.pcs[j] == s.lock.pcs[j]
    ensures InFlight(s', s.lock.pcs[j].trade)
  {}

  lemma StepAccounts(s0: State, s: State, e: Event, t: Trade)
    requires Inv(s) && Enabled(s, e) && Accounted(s0, s, t)
    ensures Accounted(s0, Apply(s, e), t)
  {
    match e
    case Act(i, ok) =>
      ActEffect(s, i, ok);
      ActAccounts(s0, s, Apply(s, e), i, s.lock.pcs[i].trade, t);
    case Place(u, o) =>
      if InFlight(s, t) {
        var j :| j in s.work && j in s.lock.pcs && s.work[j].Credit? && s.lock.pcs[j].trade == t;
        assert j in Apply(s, e).work;
      }
    case _ => if InFlight(s, t) { LockAccounts(s, e, t); }
  }

  lemma {:induction false} RunAccounts(ss: seq<State>, es: seq<Event>, k: nat, t: Trade)
    requires IsRun(ss, es) && k < |ss|
    ensures Accounted(ss[0], ss[k], t)
  {
    if k > 0 {
      RunAccounts(ss, es, k - 1, t);
      RunKeepsInv(ss, es, k - 1);
      StepAccounts(ss[0], ss[k - 1], es[k - 1], t);
    }
  }

  /** Orders settled before the run began are never credited by it. */
  lemma {:induction false} OldOrdersUnpaid(ss: seq<State>, es: seq<Event>, k: nat, t: Trade)
    requires IsRun(ss, es) && k < |ss| && t in ss[0].orders && ss[0].orders[t].status != Pending
    ensures t !in ss[k].credits && !InFlight(ss[k], t)
  {
    if k > 0 {
      OldOrdersUnpaid(ss, es, k - 1, t);
      RunKeepsInv(ss, es, k - 1);
      SettledIsFinal(ss, es, 0, k - 1, t);
      StepSkipsSettled(ss[k - 1], es[k - 1], t);
    }
  }

  lemma ActSkipsSettled(s: State, s': State, i: Tid, h: Trade, t: Trade)
    requires InHandler(s, i) && h == s.lock.pcs[i].trade && Effect(s, s', i, h)
    requires t in s.orders && s.orders[t].status != Pending && t !in s.credits && !InFlight(s, t)
    ensures t !in s'.credits && !InFlight(s', t)
  {
    assert s.work[i].Credit? ==> h != t;
    forall j | j in s'.work && j in s'.lock.pcs && s'.work[j].Credit? ensures s'.lock.pcs[j].trade != t {
      assert j != i ==> s'.work[j] == s.work[j];
    }
  }

  lemma StepSkipsSettled(s: State, e: Event, t: Trade)
    requires Inv(s) && Enabled(s, e) && t in s.orders && s.orders[t].status != Pending && t !in s.credits && !InFlight(s, t)
    ensures t !in Apply(s, e).credits && !InFlight(Apply(s, e), t)
  {
    match e
    case Act(i, ok) =>
      ActEffect(s, i, ok);
      ActSkipsSettled(s, Apply(s, e), i, s.lock.pcs[i].trade, t);
    case Place(_, _) =>
      forall j | j in s.work && j in s.lock.pcs && s.work[j].Credit? ensures s.lock.pcs[j].trade != t {}
    case _ => LockAccounts(s, e, t);
  }

  /** When the run is quiet and no write was refused, a user's quota is the opening quota plus
      the price of exactly the orders that became successful during the run. */
  lemma QuotaIsSettledOrders(ss: seq<State>, es: seq<Event>, k: nat, user: int)
    requires IsRun(ss, es) && k < |ss|
    requires ss[k].work == map[] && ss[k].lost == {}
    ensures Settled(ss[0], ss[k], user) <= ss[k].orders.Keys
    ensures Quota(ss[k], user)
         == Quota(ss[0], user) + Owed(Settled(ss[0], ss[k], user), ss[k].orders, ss[0].quotaPerUnit)
  {
    RunKeepsInv(ss, es, k);
    QuotaIsCredits(ss, es, k, user);
    forall t ensures t in Settled(ss[0], ss[k], user) <==> t in Paid(ss[k], user) {
      RunAccounts(ss, es, k, t);
      if t in ss[0].orders && ss[0].orders[t].status != Pending { OldOrdersUnpaid(ss, es, k, t); }
    }
    assert Settled(ss[0], ss[k], user) == Paid(ss[k], user);
  }
}
