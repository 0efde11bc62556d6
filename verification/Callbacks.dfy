/**
What each payment handler does to the order it is called for, from its first read to its last
write, while any number of other handlers run in between: which orders it settles, what it writes
and what it pays, told from the stored row alone.
*/
module Callbacks {
  import opened Base
  import opened Settlement
  import L = OrderLock

  // ---- A handler is left alone on its order ----

  /** The step belongs to another goroutine, or to none. */
  predicate Elsewhere(e: Event, i: Tid) {
    e.Place? || e.i != i
  }

  ghost predicate SameView(s: State, s': State, i: Tid)
    requires InHandler(s, i)
  {
    && InHandler(s', i) && s'.lock.pcs[i] == s.lock.pcs[i] && s'.work[i] == s.work[i] && s'.quotaPerUnit == s.quotaPerUnit
    && var t := s.lock.pcs[i].trade; (t in s.orders ==> t in s'.orders && s'.orders[t] == s.orders[t])
  }

  lemma OtherActKeepsView(s: State, i: Tid, j: Tid, ok: bool)
    requires Inv(s) && InHandler(s, i) && Enabled(s, Act(j, ok)) && j != i
    ensures SameView(s, Apply(s, Act(j, ok)), i)
  {
    ActEffect(s, j, ok);
    OneHandlerPerOrder(s, i, j);
  }

  lemma LockStepKeepsView(s: State, e: Event, l': L.State, i: Tid)
    requires InHandler(s, i) && Enabled(s, e) && (e.Begin? || e.LockStep?) && e.i != i && Stepped(s.lock, l', e)
    ensures SameView(s, s.(lock := l', work := WorkAfter(s, e, l')), i)
  {}

  lemma OtherLockStepKeepsView(s: State, e: Event, i: Tid)
    requires Inv(s) && InHandler(s, i) && Enabled(s, e) && (e.Begin? || e.LockStep?) && e.i != i
    ensures SameView(s, Apply(s, e), i)
  {
    var l' := LockResult(s, e);
    LockStepKeepsView(s, e, l', i);
  }

  lemma StepKeepsView(s: State, e: Event, i: Tid)
    requires Inv(s) && InHandler(s, i) && Enabled(s, e) && Elsewhere(e, i)
    ensures SameView(s, Apply(s, e), i)
  {
    if e.Act? {
      OtherActKeepsView(s, i, e.i, e.ok);
    } else if !e.Place? {
      OtherLockStepKeepsView(s, e, i);
    }
  }

  lemma SameViewTransitive(s: State, s': State, s'': State, i: Tid)
    requires InHandler(s, i) && SameView(s, s', i) && SameView(s', s'', i)
    ensures SameView(s, s'', i)
  {}

  lemma NextKeepsView(ss: seq<State>, es: seq<Event>, k: nat, i: Tid)
    requires IsRun(ss, es) && k < |es| && InHandler(ss[k], i) && Elsewhere(es[k], i)
    ensures SameView(ss[k], ss[k + 1], i)
  {
    RunKeepsInv(ss, es, k);
    StepKeepsView(ss[k], es[k], i);
  }

  /** Nothing that happens between two steps of a handler changes what it works on. */
  lemma {:induction false} ViewKept(ss: seq<State>, es: seq<Event>, a: nat, b: nat, i: Tid)
    requires IsRun(ss, es) && a <= b < |ss| && InHandler(ss[a], i)
    requires forall k | a <= k < b :: Elsewhere(es[k], i)
    ensures SameView(ss[a], ss[b], i)
  {
    if a < b {
      ViewKept(ss, es, a, b - 1, i);
      NextKeepsView(ss, es, b - 1, i);
      SameViewTransitive(ss[a], ss[b - 1], ss[b], i);
    }
  }

  // ---- Single steps, told from the row ----

  lemma ReadsPending(s: State, i: Tid, p: string)
    requires InHandler(s, i) && s.work[i] == Start(EpayNotify(p)) && s.lock.pcs[i].trade in s.orders
    requires var o := s.orders[s.lock.pcs[i].trade]; o.status == Pending && o.provider == Epay
    ensures var s', o := Apply(s, Act(i, true)), s.orders[s.lock.pcs[i].trade];
            s' == s.(work := s.work[i := Save(EpayNotify(p), o.(payMethod := p, status := Success))])
  {}

  lemma SavesRow(s: State, i: Tid, p: string, row: Order)
    requires InHandler(s, i) && s.work[i] == Save(EpayNotify(p), row)
    ensures var s' := Apply(s, Act(i, true));
            s' == s.(orders := s.orders[s.lock.pcs[i].trade := row], work := s.work[i := Credit(row)])
  {}

  lemma CreditsUser(s: State, i: Tid, row: Order, worth: real)
    requires InHandler(s, i) && s.work[i] == Credit(row) && row.provider == Epay && worth == row.amount as real * s.quotaPerUnit
    ensures var s' := Apply(s, Act(i, true));
            && s'.orders == s.orders
            && (worth >= 0.0 ==> s'.quota == s.quota[row.user := Quota(s, row.user) + worth.Floor]
                                 && s'.credits == s.credits + [s.lock.pcs[i].trade] && s'.lost == s.lost)
            && (worth <= -1.0 ==> s'.quota == s.quota && s'.credits == s.credits && s'.lost == s.lost + {s.lock.pcs[i].trade})
  {
    TruncateSpec(worth);
    assert CreditOf(row, s.quotaPerUnit) == Truncate(worth);
    assert worth >= 0.0 ==> Apply(s, Act(i, true)).quota == s.quota[row.user := Quota(s, row.user) + Truncate(worth)];
  }

  // ---- The callback as a whole ----

  /** Between its three steps the handler `i` does nothing else. */
  ghost predicate ThreeSteps(es: seq<Event>, a: nat, b: nat, c: nat, i: Tid) {
    && a < b < c < |es| && es[a] == es[b] == es[c] == Act(i, true)
    && (forall k | a < k < b :: Elsewhere(es[k], i)) && (forall k | b < k < c :: Elsewhere(es[k], i))
  }

  /** A verified Epay success callback on a pending Epay order stores the success with the method
      really used, and raises that user's quota, and no other's, by the floor of amount times
      quota per unit, whatever runs in between; a negative amount is refused. */
  lemma EpayCallbackSettles(ss: seq<State>, es: seq<Event>, a: nat, b: nat, c: nat, i: Tid, p: string, t: Trade, o: Order, worth: real)
    requires IsRun(ss, es) && ThreeSteps(es, a, b, c, i)
    requires InHandler(ss[a], i) && ss[a].work[i] == Start(EpayNotify(p)) && ss[a].lock.pcs[i].trade == t
    requires t in ss[a].orders && ss[a].orders[t] == o && o.status == Pending && o.provider == Epay
    requires worth == o.amount as real * ss[a].quotaPerUnit
    ensures ss[b + 1].orders == ss[b].orders[t := o.(payMethod := p, status := Success)]
    ensures ss[c + 1].orders == ss[c].orders && t in ss[c].orders && ss[c].orders[t] == o.(payMethod := p, status := Success)
    ensures worth >= 0.0 ==> ss[c + 1].quota == ss[c].quota[o.user := Quota(ss[c], o.user) + worth.Floor]
    ensures worth >= 0.0 ==> ss[c + 1].credits == ss[c].credits + [t]
    ensures worth <= -1.0 ==> ss[c + 1].quota == ss[c].quota && t in ss[c + 1].lost
  {
    var row := o.(payMethod := p, status := Success);
    assert ss[a + 1] == Apply(ss[a], es[a]);
    ReadsPending(ss[a], i, p);
    ViewKept(ss, es, a + 1, b, i);
    assert ss[b + 1] == Apply(ss[b], es[b]);
    SavesRow(ss[b], i, p, row);
    ViewKept(ss, es, b + 1, c, i);
    assert ss[c + 1] == Apply(ss[c], es[c]);
    CreditsUser(ss[c], i, row, worth);
  }

  lemma ReadsFailing(s: State, i: Tid)
    requires InHandler(s, i) && s.work[i] == Start(PaymentFailed) && s.lock.pcs[i].trade in s.orders
    requires var o := s.orders[s.lock.pcs[i].trade]; o.status == Pending && o.provider == Stripe
    ensures var s', o := Apply(s, Act(i, true)), s.orders[s.lock.pcs[i].trade];
            s' == s.(work := s.work[i := Save(PaymentFailed, o.(status := Failed))])
  {}

  lemma SavesFailure(s: State, i: Tid, row: Order)
    requires InHandler(s, i) && s.work[i] == Save(PaymentFailed, row)
    ensures Apply(s, Act(i, true)) == s.(orders := s.orders[s.lock.pcs[i].trade := row], work := s.work[i := Done])
  {}

  /** A failed Stripe payment marks a pending Stripe order as failed and pays nothing. */
  lemma FailureCallbackSettles(ss: seq<State>, es: seq<Event>, a: nat, b: nat, i: Tid, t: Trade, o: Order)
    requires IsRun(ss, es) && a < b < |es| && es[a] == es[b] == Act(i, true) && forall k | a < k < b :: Elsewhere(es[k], i)
    requires InHandler(ss[a], i) && ss[a].work[i] == Start(PaymentFailed) && ss[a].lock.pcs[i].trade == t
    requires t in ss[a].orders && ss[a].orders[t] == o && o.status == Pending && o.provider == Stripe
    ensures ss[b + 1].orders == ss[b].orders[t := o.(status := Failed)]
    ensures ss[a + 1].quota == ss[a].quota && ss[b + 1].quota == ss[b].quota && ss[b + 1].credits == ss[b].credits
    ensures i in ss[b + 1].work && ss[b + 1].work[i] == Done
  {
    assert ss[a + 1] == Apply(ss[a], es[a]);
    ReadsFailing(ss[a], i);
    ViewKept(ss, es, a + 1, b, i);
    assert ss[b + 1] == Apply(ss[b], es[b]);
    SavesFailure(ss[b], i, o.(status := Failed));
  }

  /** An expired Stripe session marks a pending Stripe order as expired, in one step. */
  lemma ExpiryCallbackSettles(s: State, i: Tid, t: Trade, o: Order)
    requires InHandler(s, i) && s.work[i] == Start(SessionExpired) && s.lock.pcs[i].trade == t
    requires t in s.orders && s.orders[t] == o && o.status == Pending && o.provider == Stripe
    ensures Apply(s, Act(i, true)) == s.(orders := s.orders[t := o.(status := Expired)], work := s.work[i := Done])
  {}

  /** The administrator's completion settles a pending order of any provider and pays it, in one
      step: by the money of a Stripe order and by the amount of any other, if that is worth one
      unit of quota at least; otherwise it changes nothing. */
  lemma CompletionSettles(s: State, i: Tid, t: Trade, o: Order, worth: real)
    requires InHandler(s, i) && s.work[i] == Start(AdminComplete) && s.lock.pcs[i].trade == t
    requires t in s.orders && s.orders[t] == o && o.status == Pending
    requires worth == (if o.provider == Stripe then o.money else o.amount as real) * s.quotaPerUnit
    ensures var s' := Apply(s, Act(i, true));
            if worth >= 1.0 then
              s' == s.(orders := s.orders[t := o.(status := Success)], work := s.work[i := Done],
                       quota := s.quota[o.user := Quota(s, o.user) + worth.Floor], credits := s.credits + [t])
            else s' == s.(work := s.work[i := Done])
  {
    TruncateSpec(worth);
    assert CreditOf(o, s.quotaPerUnit) == Truncate(worth);
    assert worth >= 1.0 ==> Apply(s, Act(i, true)).quota == s.quota[o.user := Quota(s, o.user) + Truncate(worth)];
  }

  /** A handler that finds no order, a settled one, or one of another provider does nothing; nor
      does one whose write of the order is refused. */
  lemma OtherwiseNothing(s: State, i: Tid, t: Trade, kind: Kind, ok: bool)
    requires InHandler(s, i) && s.work[i] == Start(kind) && s.lock.pcs[i].trade == t
    requires || t !in s.orders || s.orders[t].status != Pending
             || (kind.EpayNotify? && s.orders[t].provider != Epay)
             || ((kind.PaymentFailed? || kind.SessionExpired?) && s.orders[t].provider != Stripe)
             || ((kind.SessionExpired? || kind.AdminComplete?) && !ok)
    ensures Apply(s, Act(i, ok)) == s.(work := s.work[i := Done])
  {}

  lemma RefusedWriteNothing(s: State, i: Tid, kind: Kind, row: Order)
    requires InHandler(s, i) && s.work[i] == Save(kind, row)
    ensures Apply(s, Act(i, false)) == s.(work := s.work[i := Done])
  {}
}
