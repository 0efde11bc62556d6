/**
The video task poll of controller/task_video.go: one poll loads the stored task, overwrites it from
the upstream's result, re-bills a success by its tokens, stores it and refunds a failure. Ratios
are reals; the clock, the upstream's result, the ratio settings and the failures of the three
database writes are inputs.
*/
module VideoTask {

  import opened Base

  const SUBMITTED := "SUBMITTED"
  const QUEUED := "QUEUED"
  const IN_PROGRESS := "IN_PROGRESS"
  const SUCCESS := "SUCCESS"
  const FAILURE := "FAILURE"

  datatype Task = Task(status: string, progress: string, failReason: string, startTime: int, finishTime: int,
                       data: string, quota: int)

  datatype Result = Result(status: string, progress: string, url: string, reason: string, tokens: int)

  /** The settings that price a success: the model named in the task's data, its ratio when it is
      billed by ratio, and the ratios of the task's (or its user's) group. */
  datatype Pricing = Pricing(model: string, modelRatio: Option<real>, group: string,
                             groupRatio: real, groupGroupRatio: Option<real>)

  /** Which of the writes to the user's quota and to the task row fail. */
  datatype Faults = Faults(billing: bool, storing: bool, refunding: bool)

  datatype Poll = Poll(result: Result, data: string, pricing: Pricing, now: int, faults: Faults)

  /** The stored row and the balance of the task's user. */
  datatype Account = Account(row: Task, balance: int)

  /** What a success costs, if it is to be billed by tokens. */
  function ActualQuota(tokens: int, p: Pricing): Option<int> {
    if tokens > 0 && p.model != "" && p.modelRatio.Some? && p.modelRatio.value > 0.0 && p.group != "" then
      var groupRatio := if p.groupGroupRatio.Some? then p.groupGroupRatio.value else p.groupRatio;
      Some(Truncate(tokens as real * p.modelRatio.value * groupRatio))
    else None
  }

  predicate IsDataUrl(url: string) {
    |url| > 5 && url[..5] == "data:"
  }

  /** An empty status counts as a failure. */
  function Effective(r: Result): Result {
    if r.status == "" then Result(FAILURE, "", "", "upstream returned empty status", 0) else r
  }

  predicate Known(status: string) {
    status == SUBMITTED || status == QUEUED || status == IN_PROGRESS || status == SUCCESS || status == FAILURE
  }

  // ---- The poll ----

  class VideoAccount {
    var row: Task
    var balance: int

    constructor (t: Task, b: int)
      ensures row == t && balance == b
    {
      row, balance := t, b;
    }

    ghost function State(): Account
      reads this
    {
      Account(row, balance)
    }

    /** DecreaseUserQuota and IncreaseUserQuota refuse a negative amount. */
    method Increase(amount: int, fails: bool) returns (ok: bool)
      modifies this`balance
      ensures ok == (amount >= 0 && !fails)
      ensures balance == old(balance) + if ok then amount else 0
    {
      ok := amount >= 0 && !fails;
      if ok { balance := balance + amount; }
    }

    method Decrease(amount: int, fails: bool) returns (ok: bool)
      modifies this`balance
      ensures ok == (amount >= 0 && !fails)
      ensures balance == old(balance) - if ok then amount else 0
    {
      ok := amount >= 0 && !fails;
      if ok { balance := balance - amount; }
    }

    /** The re-billing of a success. */
    method Rebill(quota: int, actual: int, fails: bool) returns (billed: int)
      modifies this`balance
      ensures billed == (if fails then quota else actual)
      ensures balance == old(balance) - (billed - quota)
    {
      billed := quota;
      var delta := actual - quota;
      if delta > 0 {
        var ok := Decrease(delta, fails);
        if ok { billed := actual; }
      } else if delta < 0 {
        var ok := Increase(-delta, fails);
        if ok { billed := actual; }
      }
    }

    method Update(p: Poll) returns (known: bool)
      modifies this
      ensures State() == Polled(old(State()), p)
      ensures known == Known(Effective(p.result).status)
    {
      var task := row.(data := p.data);
      var result := Effective(p.result);
      var shouldRefund, quota, preStatus := false, task.quota, task.status;
      known := true;
      task := task.(status := result.status);
      var progress := result.progress;
      if result.status == SUBMITTED {
        task := task.(progress := "10%");
      } else if result.status == QUEUED {
        task := task.(progress := "20%");
      } else if result.status == IN_PROGRESS {
        task := task.(progress := "30%");
        if task.startTime == 0 { task := task.(startTime := p.now); }
      } else if result.status == SUCCESS {
        task := task.(progress := "100%");
        if task.finishTime == 0 { task := task.(finishTime := p.now); }
        if !IsDataUrl(result.url) { task := task.(failReason := result.url); }
        var actual := ActualQuota(result.tokens, p.pricing);
        if actual.Some? {
          var billed := Rebill(task.quota, actual.value, p.faults.billing);
          task := task.(quota := billed);
        }
      } else if result.status == FAILURE {
        task := task.(progress := "100%");
        if task.finishTime == 0 { task := task.(finishTime := p.now); }
        task := task.(failReason := result.reason);
        progress := "100%";
        shouldRefund := quota != 0 && preStatus != FAILURE;
      } else {
        known := false;
        return;
      }
      if progress != "" { task := task.(progress := progress); }
      if p.faults.storing { shouldRefund := false; } else { row := task; }
      if shouldRefund {
        var ok := Increase(quota, p.faults.refunding);
      }
    }
  }

  // ---- What a poll does to the account ----

  /** The quota the task is charged after the poll. */
  function Billed(t: Task, p: Poll): int {
    var r := Effective(p.result);
    if r.status == SUCCESS && !p.faults.billing && ActualQuota(r.tokens, p.pricing).Some?
    then ActualQuota(r.tokens, p.pricing).value else t.quota
  }

  function DefaultProgress(status: string): string {
    if status == SUBMITTED then "10%" else if status == QUEUED then "20%" else if status == IN_PROGRESS then "30%" else "100%"
  }

  /** The task as it is stored. */
  function Updated(t: Task, p: Poll): Task {
    var r := Effective(p.result);
    var ended := r.status == SUCCESS || r.status == FAILURE;
    Task(r.status,
         if r.status == FAILURE || r.progress == "" then DefaultProgress(r.status) else r.progress,
         if r.status == FAILURE then r.reason else if r.status == SUCCESS && !IsDataUrl(r.url) then r.url else t.failReason,
         if r.status == IN_PROGRESS && t.startTime == 0 then p.now else t.startTime,
         if ended && t.finishTime == 0 then p.now else t.finishTime,
         p.data, Billed(t, p))
  }

  /** The poll stores the step into FAILURE. */
  predicate EntersFailure(t: Task, p: Poll) {
    t.status != FAILURE && Effective(p.result).status == FAILURE && !p.faults.storing
  }

  function Refund(t: Task, p: Poll): int {
    if EntersFailure(t, p) && !p.faults.refunding && t.quota > 0 then t.quota else 0
  }

  function Polled(a: Account, p: Poll): Account {
    if !Known(Effective(p.result).status) then a
    else Account(if p.faults.storing then a.row else Updated(a.row, p),
                 a.balance - (Billed(a.row, p) - a.row.quota) + Refund(a.row, p))
  }

  // ---- Conservation ----

  /** What the task holds of its user's quota. */
  function Held(t: Task): int {
    if t.status == FAILURE then 0 else t.quota
  }

  function Total(a: Account): int {
    a.balance + Held(a.row)
  }

  /** A failed task that still records a quota is taken out of FAILURE. */
  predicate Revives(t: Task, p: Poll) {
    t.status == FAILURE && Known(Effective(p.result).status) && Effective(p.result).status != FAILURE && !p.faults.storing
  }

  /** A difference is charged or returned but not recorded. */
  predicate BillsUnrecorded(t: Task, p: Poll) {
    p.faults.storing && Billed(t, p) != t.quota
  }

  /** The failure is recorded but its quota is not given back. */
  predicate Forfeits(t: Task, p: Poll) {
    EntersFailure(t, p) && (p.faults.refunding || t.quota < 0)
  }

  /** How far a poll moves balance plus held quota, exactly. */
  function Drift(t: Task, p: Poll): int {
    if Revives(t, p) then t.quota
    else if BillsUnrecorded(t, p) then t.quota - Billed(t, p)
    else if Forfeits(t, p) then -t.quota
    else 0
  }

  lemma PollDrift(a: Account, p: Poll)
    ensures Total(Polled(a, p)) == Total(a) + Drift(a.row, p)
  {}

  /** A poll conserves balance plus held quota exactly when it does none of the three. */
  lemma PollConservesIff(a: Account, p: Poll)
    ensures Total(Polled(a, p)) == Total(a) <==>
            && !(Revives(a.row, p) && a.row.quota != 0)
            && !BillsUnrecorded(a.row, p)
            && !(Forfeits(a.row, p) && a.row.quota != 0)
  {
    PollDrift(a, p);
  }

  function RunPolls(a: Account, ps: seq<Poll>): Account
    decreases |ps|
  {
    if ps == [] then a else RunPolls(Polled(a, ps[0]), ps[1..])
  }

  function DriftOf(a: Account, ps: seq<Poll>): int
    decreases |ps|
  {
    if ps == [] then 0 else Drift(a.row, ps[0]) + DriftOf(Polled(a, ps[0]), ps[1..])
  }

  lemma {:induction false} RunDrift(a: Account, ps: seq<Poll>)
    ensures Total(RunPolls(a, ps)) == Total(a) + DriftOf(a, ps)
    decreases |ps|
  {
    if ps != [] {
      PollDrift(a, ps[0]);
      RunDrift(Polled(a, ps[0]), ps[1..]);
    }
  }

  /** All writes succeed, a failed task is left alone, and no price is negative. */
  predicate Orderly(a: Account, ps: seq<Poll>)
    decreases |ps|
  {
    ps == [] ||
    (ps[0].faults == Faults(false, false, false) && !Revives(a.row, ps[0]) && Billed(a.row, ps[0]) >= 0
     && Orderly(Polled(a, ps[0]), ps[1..]))
  }

  /** How often a run of polls enters FAILURE. */
  function Failures(a: Account, ps: seq<Poll>): nat
    decreases |ps|
  {
    if ps == [] then 0 else (if EntersFailure(a.row, ps[0]) then 1 else 0) + Failures(Polled(a, ps[0]), ps[1..])
  }

  /** Along every orderly run balance plus held quota is constant, FAILURE is entered at most
      once, and once it is there every charge has been given back. */
  lemma {:induction false} OrderlyRunConserves(a: Account, ps: seq<Poll>)
    requires a.row.quota >= 0 && Orderly(a, ps)
    ensures Total(RunPolls(a, ps)) == Total(a)
    ensures Failures(a, ps) == (if a.row.status != FAILURE && RunPolls(a, ps).row.status == FAILURE then 1 else 0)
    ensures a.row.status == FAILURE ==> RunPolls(a, ps).row.status == FAILURE && RunPolls(a, ps).balance == a.balance
    ensures RunPolls(a, ps).row.status == FAILURE ==> RunPolls(a, ps).balance == Total(a)
    decreases |ps|
  {
    if ps != [] {
      PollDrift(a, ps[0]);
      OrderlyRunConserves(Polled(a, ps[0]), ps[1..]);
    }
  }

  /** Without faults the full quota is returned exactly by the poll that enters FAILURE; a success
      leaves the user charged the actual quota, and any other poll leaves the balance alone. */
  lemma RefundExactlyOnFailure(a: Account, p: Poll)
    requires p.faults == Faults(false, false, false) && a.row.quota >= 0
    ensures var b := Polled(a, p);
            && (a.row.status != FAILURE && b.row.status == FAILURE ==> b.balance == a.balance + a.row.quota)
            && (b.row.status == SUCCESS && Effective(p.result).status == SUCCESS ==> a.balance - b.balance == b.row.quota - a.row.quota)
            && (b.balance != a.balance ==> EntersFailure(a.row, p) || Effective(p.result).status == SUCCESS)
  {}

  /** FAILURE is not terminal by itself: a stale result takes the task out of it, and the next
      failure refunds the same quota again. */
  lemma RevivedFailureRefundsAgain(a: Account, stale: Poll, failure: Poll)
    requires a.row.status == FAILURE && a.row.quota > 0
    requires Effective(stale.result).status == QUEUED && Effective(failure.result).status == FAILURE
    requires stale.faults == failure.faults == Faults(false, false, false)
    ensures RunPolls(a, [stale, failure]).balance == a.balance + a.row.quota
  {
    var b := Polled(a, stale);
    var c := Polled(b, failure);
    assert [stale, failure][1..] == [failure] && RunPolls(a, [stale, failure]) == RunPolls(b, [failure]);
    assert [failure][1..] == [] && RunPolls(b, [failure]) == RunPolls(c, []);
  }

  // ---- A poll, told from the upstream's result ----

  const NO_FAULTS := Faults(false, false, false)

  /** A success with tokens, of a model billed by a positive ratio, for a group: the stored quota is
      the floor of tokens times model ratio times the group's own ratio for itself if it has one,
      else the group ratio, and the balance moves by the difference to what was held. */
  lemma SuccessIsBilled(a: Account, p: Poll, ratio: real, groupRatio: real, worth: real)
    requires p.faults == NO_FAULTS && p.result.status == "SUCCESS" && p.result.tokens > 0
    requires p.pricing.model != "" && p.pricing.modelRatio == Some(ratio) && ratio > 0.0 && p.pricing.group != ""
    requires groupRatio == match p.pricing.groupGroupRatio case Some(r) => r case None => p.pricing.groupRatio
    requires worth == p.result.tokens as real * ratio * groupRatio
    ensures var b := Polled(a, p);
            && b.row.status == "SUCCESS" && b.balance == a.balance - (b.row.quota - a.row.quota)
            && (worth >= 0.0 ==> b.row.quota == worth.Floor) && (worth < 0.0 ==> b.row.quota == -((-worth).Floor))
  {
    TruncateSpec(worth);
    assert Billed(a.row, p) == Truncate(worth);
  }

  /** Any other success is not billed again. */
  lemma OtherSuccessIsFree(a: Account, p: Poll)
    requires p.faults == NO_FAULTS && p.result.status == "SUCCESS"
    requires || p.result.tokens <= 0 || p.pricing.model == "" || p.pricing.group == ""
             || p.pricing.modelRatio == None || p.pricing.modelRatio.value <= 0.0
    ensures Polled(a, p).row.quota == a.row.quota && Polled(a, p).balance == a.balance
  {}

  /** A failure, reported or implied by an empty status, ends the task with its reason and returns a
      positive quota unless the task had failed already. */
  lemma FailureIsStored(a: Account, p: Poll)
    requires p.faults == NO_FAULTS && (p.result.status == "FAILURE" || p.result.status == "")
    ensures var b := Polled(a, p);
            && b.row == a.row.(status := "FAILURE", progress := "100%", data := p.data,
                               failReason := if p.result.status == "" then "upstream returned empty status" else p.result.reason,
                               finishTime := if a.row.finishTime == 0 then p.now else a.row.finishTime)
            && b.balance == a.balance + if a.row.status != "FAILURE" && a.row.quota > 0 then a.row.quota else 0
  {}

  /** A status on the way is stored with the progress reported or its default; starting is timed once. */
  lemma ProgressIsStored(a: Account, p: Poll, default: string)
    requires p.faults == NO_FAULTS
    requires || (p.result.status == "SUBMITTED" && default == "10%") || (p.result.status == "QUEUED" && default == "20%")
             || (p.result.status == "IN_PROGRESS" && default == "30%")
    ensures Polled(a, p) ==
            a.(row := a.row.(status := p.result.status, progress := if p.result.progress == "" then default else p.result.progress,
                             data := p.data,
                             startTime := if p.result.status == "IN_PROGRESS" && a.row.startTime == 0 then p.now else a.row.startTime))
  {}

  /** A success is stored with the progress reported or 100%, its address unless it is inline data,
      and the time it was first seen. */
  lemma SuccessIsStored(a: Account, p: Poll)
    requires p.faults == NO_FAULTS && p.result.status == "SUCCESS"
    ensures var b := Polled(a, p).row;
            && b == a.row.(status := "SUCCESS", progress := if p.result.progress == "" then "100%" else p.result.progress, data := p.data,
                           failReason := if |p.result.url| > 5 && p.result.url[..5] == "data:" then a.row.failReason else p.result.url,
                           finishTime := if a.row.finishTime == 0 then p.now else a.row.finishTime, quota := b.quota)
  {}

  /** Any other status is an error and changes nothing. */
  lemma UnknownStatusIgnored(a: Account, p: Poll)
    requires p.result.status !in {"", "SUBMITTED", "QUEUED", "IN_PROGRESS", "SUCCESS", "FAILURE"}
    ensures Polled(a, p) == a
  {}
}
