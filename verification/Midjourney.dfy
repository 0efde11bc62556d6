/**
The Midjourney poller of controller/midjourney.go, for one task row: any number of pollers take a
snapshot of the row while it is unfinished, fetch the upstream's view of it, overwrite their copy
and write it back with a compare-and-set on the status they started from; the winner of a failing
write refunds the task's quota. The compare-and-set is atomic; whether a write fails in the
database, and whether an hour has passed, are inputs of each step.
*/
module Midjourney {

  import opened Base

  const FAILURE := "FAILURE"
  const DONE := "100%"
  const TIMED_OUT := "upstream task timed out (over one hour)"

  /** `compared` stands for the remaining fields that decide whether an update is needed, as they
      are stored; `extra` for Properties and Buttons, which are copied but not compared. */
  datatype Task = Task(code: int, status: string, progress: string, failReason: string,
                       compared: string, extra: string, quota: int)

  datatype Response = Response(status: string, progress: string, failReason: string,
                               compared: string, extra: Option<string>)

  /** An unfinished task older than one hour is failed whatever the upstream says. */
  function Effective(t: Task, r: Response, late: bool): Response {
    if late && t.progress != DONE then r.(status := FAILURE, failReason := TIMED_OUT) else r
  }

  predicate NeedsUpdate(t: Task, r: Response) {
    || t.code != 1 || t.progress != r.progress || t.compared != r.compared
    || t.status != r.status || t.failReason != r.failReason
    || (t.progress != DONE && r.failReason != "")
  }

  /** The response counts as a failed task. */
  predicate Fails(r: Response) {
    || (r.progress != DONE && r.failReason != "")
    || (r.progress == DONE && r.status == FAILURE)
  }

  function Overwritten(t: Task, r: Response): Task {
    Task(1, r.status, if Fails(r) then DONE else r.progress, r.failReason, r.compared,
         if r.extra.Some? then r.extra.value else t.extra, t.quota)
  }

  /** Skipping a response that needs no update loses nothing but the uncompared fields. */
  lemma SkippingIsHarmless(t: Task, r: Response)
    ensures !NeedsUpdate(t, r) <==>
            Overwritten(t, r).(extra := t.extra) == t && !(r.progress != DONE && r.failReason != "")
  {}

  // ---- The protocol ----

  /** `local` holds each poller's copy, `used` the pollers that have processed a response with it;
      `lost` counts the refunds whose write to the balance failed. */
  datatype State = State(row: Task, local: map<nat, Task>, used: set<nat>, refunds: nat, lost: nat, balance: int)

  datatype Event =
    | Snapshot(p: nat)
    | Process(p: nat, r: Response, late: bool, dbFails: bool, refundFails: bool)
    | BulkFail(reason: Option<string>)

  predicate Enabled(s: State, e: Event) {
    match e
    case Snapshot(p) => s.row.progress != DONE
    case Process(p, r, late, dbFails, refundFails) => p in s.local
    case BulkFail(reason) => true
  }

  function Apply(s: State, e: Event): State
    requires Enabled(s, e)
  {
    match e
    case Snapshot(p) => s.(local := s.local[p := s.row], used := s.used - {p})
    case Process(p, r, late, dbFails, refundFails) => Processed(s, p, Effective(s.local[p], r, late), dbFails, refundFails)
    case BulkFail(reason) =>
      s.(row := s.row.(status := FAILURE, progress := DONE,
                       failReason := if reason.Some? then reason.value else s.row.failReason))
  }

  predicate Wins(s: State, p: nat, dbFails: bool)
    requires p in s.local
  {
    !dbFails && s.row.status == s.local[p].status
  }

  /** The balance refuses a negative amount. */
  function Processed(s: State, p: nat, r: Response, dbFails: bool, refundFails: bool): State
    requires p in s.local
  {
    if !NeedsUpdate(s.local[p], r) then s.(used := s.used + {p})
    else
      var written := Overwritten(s.local[p], r);
      var won := Wins(s, p, dbFails);
      var refund := won && Fails(r) && written.quota != 0;
      var paid := refund && !refundFails && written.quota >= 0;
      State(if won then written else s.row, s.local[p := written], s.used + {p},
            if refund then s.refunds + 1 else s.refunds,
            if refund && !paid then s.lost + 1 else s.lost,
            if paid then s.balance + written.quota else s.balance)
  }

  /** An answer may list a task more than once, but nothing new after it has reported a failure. */
  predicate EndsWithFailure(s: State, e: Event)
    requires Enabled(s, e)
  {
    e.Process? && e.p in s.used && s.local[e.p].status == FAILURE ==>
      !NeedsUpdate(s.local[e.p], Effective(s.local[e.p], e.r, e.late))
  }

  ghost predicate Answers(e: Event, allowed: iset<Response>) {
    e.Process? ==> e.r in allowed
  }

  /** A database that reports the rows it changed, rather than the rows it matched, reports no win
      for a write that changes nothing; such a write is then one that fails. */
  predicate Reported(s: State, e: Event, strict: bool)
    requires Enabled(s, e)
  {
    strict && e.Process? && Wins(s, e.p, e.dbFails) && NeedsUpdate(s.local[e.p], Effective(s.local[e.p], e.r, e.late)) ==>
      Apply(s, e).row != s.row
  }

  ghost predicate Happens(s: State, e: Event, allowed: iset<Response>, strict: bool) {
    Enabled(s, e) && EndsWithFailure(s, e) && Answers(e, allowed) && Reported(s, e, strict)
  }

  ghost predicate IsRun(s: State, es: seq<Event>, allowed: iset<Response>, strict: bool)
    decreases |es|
  {
    es == [] || (Happens(s, es[0], allowed, strict) && IsRun(Apply(s, es[0]), es[1..], allowed, strict))
  }

  ghost function After(s: State, es: seq<Event>, allowed: iset<Response>, strict: bool): State
    requires IsRun(s, es, allowed, strict)
    decreases |es|
  {
    if es == [] then s else After(Apply(s, es[0]), es[1..], allowed, strict)
  }

  lemma {:induction false} RunExtends(s: State, es: seq<Event>, e: Event, allowed: iset<Response>, strict: bool)
    requires IsRun(s, es, allowed, strict) && Happens(After(s, es, allowed, strict), e, allowed, strict)
    ensures IsRun(s, es + [e], allowed, strict)
    ensures After(s, es + [e], allowed, strict) == Apply(After(s, es, allowed, strict), e)
    decreases |es|
  {
    if es == [] {
      assert (es + [e])[1..] == [] && (es + [e])[0] == e;
    } else {
      RunExtends(Apply(s, es[0]), es[1..], e, allowed, strict);
      assert (es + [e])[1..] == es[1..] + [e] && (es + [e])[0] == es[0];
    }
  }

  /** A submitted task that has not failed, with no poller at work. */
  predicate Submitted(s: State) {
    s.local == map[] && s.refunds == 0 && s.row.status != FAILURE
  }

  // ---- At most one refund ----

  /** A response says FAILURE exactly when it counts as failed. */
  predicate Coherent(r: Response) {
    r.progress == DONE || (r.failReason != "" <==> r.status == FAILURE)
  }

  lemma CoherentSpec(r: Response)
    ensures Coherent(r) <==> (Fails(r) <==> r.status == FAILURE)
  {}

  lemma EffectiveCoherent(t: Task, r: Response, late: bool)
    requires Coherent(r)
    ensures Coherent(Effective(t, r, late))
  {}

  ghost predicate Inv(s: State) {
    && (forall p | p in s.local && p !in s.used :: s.local[p].status != FAILURE)
    && (s.row.status != FAILURE ==> s.refunds == 0)
    && (s.row.status == FAILURE ==> s.refunds <= 1 && s.row.progress == DONE)
  }

  /** A step refunds exactly when a poller moves the row into FAILURE, and FAILURE is final. */
  lemma StepKeepsInv(s: State, e: Event)
    requires Inv(s) && Enabled(s, e) && EndsWithFailure(s, e) && (e.Process? ==> Coherent(e.r))
    ensures Inv(Apply(s, e))
    ensures s.row.status == FAILURE ==> Apply(s, e).row.status == FAILURE
    ensures Apply(s, e).refunds == s.refunds + 1 <==>
            e.Process? && s.row.status != FAILURE && Apply(s, e).row.status == FAILURE && Apply(s, e).row.quota != 0
  {
    if e.Process? {
      var r := Effective(s.local[e.p], e.r, e.late);
      EffectiveCoherent(s.local[e.p], e.r, e.late);
      CoherentSpec(r);
    }
  }

  lemma {:induction false} CoherentRunRefundsOnce(s: State, es: seq<Event>, allowed: iset<Response>, strict: bool)
    requires Inv(s) && IsRun(s, es, allowed, strict) && forall r | r in allowed :: Coherent(r)
    ensures Inv(After(s, es, allowed, strict))
    ensures s.row.status == FAILURE ==>
              After(s, es, allowed, strict).row.status == FAILURE && After(s, es, allowed, strict).refunds == s.refunds
    decreases |es|
  {
    if es != [] {
      StepKeepsInv(s, es[0]);
      CoherentRunRefundsOnce(Apply(s, es[0]), es[1..], allowed, strict);
    }
  }

  ghost predicate SameQuota(s: State) {
    forall p | p in s.local :: s.local[p].quota == s.row.quota
  }

  /** A step pays the task's quota for a refund, or counts it as lost. */
  lemma StepPays(s: State, e: Event)
    requires SameQuota(s) && Enabled(s, e)
    ensures var t := Apply(s, e);
            && SameQuota(t) && t.row.quota == s.row.quota
            && s.refunds <= t.refunds <= s.refunds + 1 && s.lost <= t.lost <= s.lost + (t.refunds - s.refunds)
            && t.balance == s.balance + if t.refunds > s.refunds && t.lost == s.lost then s.row.quota else 0
  {}

  lemma Sum(q: int, a: int, b: int)
    ensures (a + b) * q == a * q + b * q
  {}

  /** The user's balance grows by exactly the task's quota for every refund that is not lost,
      whatever the responses. */
  lemma {:induction false} BalanceIsRefunds(s: State, es: seq<Event>, allowed: iset<Response>, strict: bool)
    requires IsRun(s, es, allowed, strict) && SameQuota(s)
    ensures var t := After(s, es, allowed, strict);
            && t.row.quota == s.row.quota && t.refunds >= s.refunds && s.lost <= t.lost <= s.lost + (t.refunds - s.refunds)
            && t.balance == s.balance + ((t.refunds - s.refunds) - (t.lost - s.lost)) * s.row.quota
    decreases |es|
  {
    if es != [] {
      var t, u := Apply(s, es[0]), After(s, es, allowed, strict);
      StepPays(s, es[0]);
      BalanceIsRefunds(t, es[1..], allowed, strict);
      Sum(s.row.quota, (t.refunds - s.refunds) - (t.lost - s.lost), (u.refunds - t.refunds) - (u.lost - t.lost));
    }
  }

  ghost predicate AtMostOneRefund(allowed: iset<Response>, strict: bool) {
    forall s, es :: Submitted(s) && IsRun(s, es, allowed, strict) ==> After(s, es, allowed, strict).refunds <= 1
  }

  /** At most one refund, over every run of any number of pollers with stale snapshots and on either
      kind of database, exactly when every response the upstream may give is coherent. */
  lemma AtMostOneRefundIff(allowed: iset<Response>, strict: bool)
    ensures AtMostOneRefund(allowed, strict) <==> forall r | r in allowed :: Coherent(r)
  {
    if forall r | r in allowed :: Coherent(r) {
      forall s, es | Submitted(s) && IsRun(s, es, allowed, strict) ensures After(s, es, allowed, strict).refunds <= 1 {
        CoherentRunRefundsOnce(s, es, allowed, strict);
      }
    }
    forall r | r in allowed && !Coherent(r) ensures !AtMostOneRefund(allowed, strict) {
      if Fails(r) { StatusKeptRefundsTwice(r, allowed, strict); } else { FailureLeftOpenRefundsTwice(r, allowed, strict); }
    }
  }

  function Fresh(status: string): State {
    State(Task(0, status, "0%", "", "", "", 1), map[], {}, 0, 0, 0)
  }

  function Poll(p: nat, r: Response, late: bool): Event {
    Process(p, r, late, false, false)
  }

  /** A failing response with another status: the status does not change, so a second stale poller,
      for which the hour is over, wins as well. */
  lemma StatusKeptRefundsTwice(r: Response, allowed: iset<Response>, strict: bool)
    requires r in allowed && Fails(r) && r.status != FAILURE
    ensures !AtMostOneRefund(allowed, strict)
  {
    var s0 := Fresh(r.status);
    var es := TwoSnapshots(s0, [], allowed, strict);
    var s2 := After(s0, es, allowed, strict);
    assert Happens(s2, Poll(0, r, false), allowed, strict) && Apply(s2, Poll(0, r, false)).refunds == 1;
    RunExtends(s0, es, Poll(0, r, false), allowed, strict);
    es := es + [Poll(0, r, false)];
    var s3 := After(s0, es, allowed, strict);
    assert s3.row.status == r.status && 1 in s3.local && s3.local[1] == s2.local[1];
    assert Happens(s3, Poll(1, r, true), allowed, strict) && Apply(s3, Poll(1, r, true)).refunds == 2;
    RunExtends(s0, es, Poll(1, r, true), allowed, strict);
  }

  /** Two pollers take a snapshot of the same open row. */
  lemma TwoSnapshots(s: State, es: seq<Event>, allowed: iset<Response>, strict: bool) returns (es': seq<Event>)
    requires IsRun(s, es, allowed, strict) && After(s, es, allowed, strict).row.progress != DONE
    ensures IsRun(s, es', allowed, strict)
    ensures var t, t' := After(s, es, allowed, strict), After(s, es', allowed, strict);
            t' == t.(local := t.local[0 := t.row][1 := t.row], used := t.used - {0} - {1})
  {
    RunExtends(s, es, Snapshot(0), allowed, strict);
    RunExtends(s, es + [Snapshot(0)], Snapshot(1), allowed, strict);
    es' := es + [Snapshot(0)] + [Snapshot(1)];
  }

  /** FAILURE without a failing response leaves the row open: two pollers see FAILURE, and after an
      hour both move it from FAILURE to FAILURE; in between, a pass that cannot find the channel
      writes a reason of its own. */
  lemma FailureLeftOpenRefundsTwice(r: Response, allowed: iset<Response>, strict: bool)
    requires r in allowed && !Fails(r) && r.status == FAILURE
    ensures !AtMostOneRefund(allowed, strict)
  {
    var a := Fresh("");
    var es := OpenFailure(r, allowed, strict);
    es := TwoSnapshots(a, es, allowed, strict);
    var s2 := After(a, es, allowed, strict);
    assert Happens(s2, Poll(0, r, true), allowed, strict) && Apply(s2, Poll(0, r, true)).refunds == 1;
    RunExtends(a, es, Poll(0, r, true), allowed, strict);
    es := es + [Poll(0, r, true)];
    var s3 := After(a, es, allowed, strict);
    assert s3.row.status == FAILURE && 1 in s3.local && s3.local[1] == s2.local[1] && 1 !in s3.used;
    RunExtends(a, es, BulkFail(Some("")), allowed, strict);
    es := es + [BulkFail(Some(""))];
    var s4 := After(a, es, allowed, strict);
    assert Happens(s4, Poll(1, r, true), allowed, strict) && Apply(s4, Poll(1, r, true)).refunds == 2;
    RunExtends(a, es, Poll(1, r, true), allowed, strict);
  }

  lemma OpenFailure(r: Response, allowed: iset<Response>, strict: bool) returns (es: seq<Event>)
    requires r in allowed && !Fails(r) && r.status == FAILURE
    ensures IsRun(Fresh(""), es, allowed, strict)
    ensures var s := After(Fresh(""), es, allowed, strict);
            s.row == Overwritten(Fresh("").row, r) && s.row.progress != DONE && s.refunds == 0
  {
    var a := Fresh("");
    RunExtends(a, [], Snapshot(0), allowed, strict);
    es := [] + [Snapshot(0)];
    var b := After(a, es, allowed, strict);
    assert b == a.(local := map[0 := a.row]);
    assert Happens(b, Poll(0, r, false), allowed, strict);
    RunExtends(a, es, Poll(0, r, false), allowed, strict);
    es := es + [Poll(0, r, false)];
  }

  /** Why nothing new may follow a failure in one answer: the copy already says FAILURE. A second
      response for it refunds again exactly when it fails and brings something new, and takes the
      row out of FAILURE exactly when it reports another status; then a later failure refunds
      again. A finished failing response that brings something new changes the row as well, so the
      kind of database does not matter. */
  lemma SecondListing(s: State, p: nat, first: Response, second: Response, third: Response)
    requires p in s.local && s.row.status == s.local[p].status != FAILURE && s.local[p].quota != 0
    requires Coherent(first) && Fails(first)
    ensures var s1 := Apply(s, Poll(p, first, false));
            && s1.refunds == s.refunds + 1 && s1.row.status == FAILURE && p in s1.local
            && (var s2 := Apply(s1, Poll(p, second, false));
                && (s2.refunds == s.refunds + 2 <==> Fails(second) && NeedsUpdate(s1.local[p], second))
                && (s2.row.status != FAILURE <==> second.status != FAILURE)
                && (second.progress == DONE && Fails(second) && NeedsUpdate(s1.local[p], second) ==> s2.row != s1.row)
                && p in s2.local
                && (second.status != FAILURE && !Fails(second) && second.progress != DONE ==>
                      Apply(s2, Poll(p, third, true)).refunds == s.refunds + 2))
  {}

  // ---- One pass over the answer of a channel ----

  /** One element of the answer, with what happens while it is processed. */
  datatype Item = Item(id: string, r: Response, late: bool, dbFails: bool, refundFails: bool)

  /** What a pass knows of one task: its row, its copy if it is in the pass, its refunds. */
  datatype Track = Track(row: Task, copy: Option<Task>, refunds: nat)

  /** A track as a state of the protocol with the pass as poller 0, and back. */
  function Single(t: Track): State {
    State(t.row, if t.copy.Some? then map[0 := t.copy.value] else map[], {}, t.refunds, 0, 0)
  }

  function Tracked(s: State): Track {
    Track(s.row, if 0 in s.local then Some(s.local[0]) else None, s.refunds)
  }

  function Event0(item: Item): Event {
    Process(0, item.r, item.late, item.dbFails, item.refundFails)
  }

  /** An item takes a step of the protocol; an item of a task outside the pass is ignored. */
  function Turn(): (Track, Item) -> Track {
    (t: Track, item: Item) => if t.copy.Some? then Tracked(Apply(Single(t), Event0(item))) else t
  }

  /** A task goes through the items that carry its id, in order. */
  function Turns(t: Track, items: seq<Item>, n: nat, id: string, turn: (Track, Item) -> Track): Track
    requires n <= |items|
  {
    if n == 0 then t
    else
      var before := Turns(t, items, n - 1, id, turn);
      if items[n - 1].id == id then turn(before, items[n - 1]) else before
  }

  function Times(ids: seq<string>, id: string): nat {
    if ids == [] then 0 else Times(ids[..|ids| - 1], id) + if ids[|ids| - 1] == id then 1 else 0
  }

  function TrackOf(rows: map<string, Task>, copies: map<string, Task>, refunds: seq<string>, id: string): Track
    requires id in rows
  {
    Track(rows[id], if id in copies then Some(copies[id]) else None, Times(refunds, id))
  }

  /** One item against the copy and the row of its task: the new copy, and the row and refund if
      the compare-and-set is won. */
  method ProcessItem(task: Task, row: Task, item: Item, ghost n: nat) returns (copy: Task, stored: Task, refunded: bool)
    ensures Track(stored, Some(copy), n + if refunded then 1 else 0) == Turn()(Track(row, Some(task), n), item)
  {
    copy, stored, refunded := task, row, false;
    var r := item.r;
    if item.late && task.progress != DONE { r := r.(failReason := TIMED_OUT, status := FAILURE); }
    if !NeedsUpdate(task, r) { return; }
    var preStatus := task.status;
    copy := copy.(code := 1, progress := r.progress, status := r.status, failReason := r.failReason, compared := r.compared);
    if r.extra.Some? { copy := copy.(extra := r.extra.value); }
    var shouldReturnQuota := false;
    if (copy.progress != DONE && r.failReason != "") || (copy.progress == DONE && copy.status == FAILURE) {
      copy := copy.(progress := DONE);
      shouldReturnQuota := copy.quota != 0;
    }
    var won := !item.dbFails && row.status == preStatus;
    if won {
      stored := copy;
      refunded := shouldReturnQuota;
    }
  }

  lemma TimesAppend(ids: seq<string>, last: string, id: string)
    ensures Times(ids + [last], id) == Times(ids, id) + if last == id then 1 else 0
  {
    assert (ids + [last])[..|ids|] == ids;
  }

  ghost predicate Moves(rows: map<string, Task>, copies: map<string, Task>, refunds: seq<string>, after: map<string, Task>,
                        copies': map<string, Task>, refunds': seq<string>, item: Item, turn: (Track, Item) -> Track)
    requires rows.Keys == after.Keys
  {
    forall id | id in rows ::
      TrackOf(after, copies', refunds', id) ==
      if id == item.id then turn(TrackOf(rows, copies, refunds, id), item) else TrackOf(rows, copies, refunds, id)
  }

  /** One turn of the loop: the task the item names takes its step, all others stay. */
  method ProcessOne(rows: map<string, Task>, copies: map<string, Task>, refunds: seq<string>, item: Item)
    returns (after: map<string, Task>, copies': map<string, Task>, refunds': seq<string>)
    requires copies.Keys <= rows.Keys
    ensures after.Keys == rows.Keys && copies'.Keys == copies.Keys
    ensures Moves(rows, copies, refunds, after, copies', refunds', item, Turn())
  {
    after, copies', refunds' := rows, copies, refunds;
    if item.id in copies {
      var copy, stored, refunded := ProcessItem(copies[item.id], rows[item.id], item, Times(refunds, item.id));
      copies', after := copies[item.id := copy], rows[item.id := stored];
      if refunded {
        forall id { TimesAppend(refunds, item.id, id); }
        refunds' := refunds + [item.id];
      }
    }
  }

  /** The loop over the items: answers for unknown tasks are ignored, and each task's row, copy
      and refunds go through exactly the steps of its own items. */
  method ProcessAnswers(rows: map<string, Task>, tasks: map<string, Task>, items: seq<Item>)
    returns (after: map<string, Task>, copies: map<string, Task>, refunds: seq<string>)
    requires tasks.Keys <= rows.Keys
    ensures after.Keys == rows.Keys && copies.Keys == tasks.Keys
    ensures forall id | id in rows ::
              TrackOf(after, copies, refunds, id) == Turns(TrackOf(rows, tasks, [], id), items, |items|, id, Turn())
  {
    after, copies, refunds := rows, tasks, [];
    for i := 0 to |items|
      invariant after.Keys == rows.Keys && copies.Keys == tasks.Keys
      invariant forall id | id in rows ::
                  TrackOf(after, copies, refunds, id) == Turns(TrackOf(rows, tasks, [], id), items, i, id, Turn())
    {
      after, copies, refunds := ProcessOne(after, copies, refunds, items[i]);
    }
  }

  /** A task listed once takes part with a single step of the protocol. */
  lemma {:induction false} ListedOnceIsOneStep(t: Track, items: seq<Item>, n: nat, id: string, k: nat)
    requires k < n <= |items| && items[k].id == id && t.copy.Some?
    requires forall i | 0 <= i < n :: items[i].id == id <==> i == k
    ensures Turns(t, items, n, id, Turn()) == Tracked(Apply(Single(t), Event0(items[k])))
  {
    if k < n - 1 {
      ListedOnceIsOneStep(t, items, n - 1, id, k);
    } else {
      NotListedIsNoStep(t, items, k, id);
    }
  }

  lemma {:induction false} NotListedIsNoStep(t: Track, items: seq<Item>, n: nat, id: string)
    requires n <= |items| && forall i | 0 <= i < n :: items[i].id != id
    ensures Turns(t, items, n, id, Turn()) == t
  {
    if n > 0 { NotListedIsNoStep(t, items, n - 1, id); }
  }

  // ---- A step, told from the upstream's response ----

  /** What a poller makes of a response: `status` and `reason` are overridden once the hour is over,
      and `fails` says whether the task has failed. */
  predicate Reads(t: Task, r: Response, late: bool, status: string, reason: string, fails: bool) {
    && status == (if late && t.progress != "100%" then "FAILURE" else r.status)
    && reason == (if late && t.progress != "100%" then "upstream task timed out (over one hour)" else r.failReason)
    && (fails <==> (r.progress != "100%" && reason != "") || (r.progress == "100%" && status == "FAILURE"))
  }

  predicate Changes(t: Task, r: Response, status: string, reason: string) {
    || t.code != 1 || t.progress != r.progress || t.compared != r.compared || t.status != status || t.failReason != reason
    || (t.progress != "100%" && reason != "")
  }

  /** The poller whose copy still has the row's status writes every field it was told; Properties
      and Buttons stay when the response has none. It returns the quota of a failed task. */
  lemma WinnerWrites(s: State, p: nat, r: Response, late: bool, refundFails: bool, status: string, reason: string, fails: bool)
    requires p in s.local && s.row.status == s.local[p].status
    requires Reads(s.local[p], r, late, status, reason, fails) && Changes(s.local[p], r, status, reason)
    ensures var t, after := s.local[p], Apply(s, Process(p, r, late, false, refundFails));
            && after.row == Task(1, status, if fails then "100%" else r.progress, reason, r.compared,
                                 if r.extra.Some? then r.extra.value else t.extra, t.quota)
            && after.balance == s.balance + if fails && t.quota > 0 && !refundFails then t.quota else 0
  {}

  /** A poller that is told nothing new, loses the race or cannot write changes neither. */
  lemma OthersWriteNothing(s: State, p: nat, r: Response, late: bool, dbFails: bool, refundFails: bool, status: string, reason: string, fails: bool)
    requires p in s.local && Reads(s.local[p], r, late, status, reason, fails)
    requires !Changes(s.local[p], r, status, reason) || s.row.status != s.local[p].status || dbFails
    ensures var after := Apply(s, Process(p, r, late, dbFails, refundFails));
            after.row == s.row && after.balance == s.balance && after.refunds == s.refunds
  {}
}
