/**
The reference-counted per-order lock of controller/topup.go (`LockOrder`, `UnlockOrder`),
as a step system: any number of goroutines, any number of trade numbers, one step per
source line. A goroutine appears when it calls `LockOrder` and disappears when
`UnlockOrder` returns; between the two it unlocks only what it locked.
*/
module OrderLock {

  type Tid = nat       // a goroutine
  type Trade = string  // a trade number
  type Mutex = nat     // the address of one refCountedMutex

  import opened Base

  /** `line` is the line of controller/topup.go the goroutine is about to execute: 280, 282
      (load or store the entry), 288, 289, 290 in `LockOrder`; 295, 300, 302, 303, 304 (test and
      delete), 307 in `UnlockOrder`. At 295 the goroutine is running its caller's code.
      `m` is the entry it was handed in `LockOrder`, `loaded` the one `UnlockOrder` read back. */
  datatype Pc = Pc(line: int, trade: Trade, m: Mutex, loaded: Mutex)

  /** `create` and `owner` record which goroutine took a mutex; the steps themselves only
      ask whether it is taken, as sync.Mutex does. `fault` is set by unlocking a free mutex
      and by an `UnlockOrder` that finds no entry (line 296). */
  datatype State = State(
    create: Option<Tid>,
    table: map<Trade, Mutex>,
    owner: map<Mutex, Tid>,
    refs: map<Mutex, int>,
    pcs: map<Tid, Pc>,
    next: nat,
    fault: bool)

  datatype Event = Call(i: Tid, trade: Trade) | Advance(i: Tid)

  const Empty := State(None, map[], map[], map[], map[], 0, false)

  predicate Enabled(s: State, e: Event) {
    match e
    case Call(i, _) => i !in s.pcs
    case Advance(i) =>
      && i in s.pcs
      && (s.pcs[i].line == 280 || s.pcs[i].line == 302 ==> s.create.None?)
      && (s.pcs[i].line == 290 ==> s.pcs[i].m !in s.owner)
  }

  function Refs(s: State, m: Mutex): int {
    if m in s.refs then s.refs[m] else 0
  }

  function Goto(s: State, i: Tid, pc: Pc): map<Tid, Pc> {
    s.pcs[i := pc]
  }

  function Apply(s: State, e: Event): State
    requires Enabled(s, e)
  {
    match e
    case Call(i, t) => s.(pcs := Goto(s, i, Pc(280, t, 0, 0)))
    case Advance(i) => if s.pcs[i].line <= 290 then Lock(s, i) else Unlock(s, i)
  }

  function Lock(s: State, i: Tid): State
    requires Enabled(s, Advance(i))
  {
    var pc := s.pcs[i];
    if pc.line == 280 then
      s.(create := Some(i), pcs := Goto(s, i, pc.(line := 282)))
    else if pc.line == 282 then
      if pc.trade in s.table then
        s.(pcs := Goto(s, i, pc.(line := 288, m := s.table[pc.trade])))
      else
        s.(table := s.table[pc.trade := s.next], refs := s.refs[s.next := 0], next := s.next + 1,
           pcs := Goto(s, i, pc.(line := 288, m := s.next)))
    else if pc.line == 288 then
      s.(refs := s.refs[pc.m := Refs(s, pc.m) + 1], pcs := Goto(s, i, pc.(line := 289)))
    else if pc.line == 289 then
      s.(create := None, fault := s.fault || s.create.None?, pcs := Goto(s, i, pc.(line := 290)))
    else
      s.(owner := s.owner[pc.m := i], pcs := Goto(s, i, pc.(line := 295)))
  }

  function Unlock(s: State, i: Tid): State
    requires Enabled(s, Advance(i))
  {
    var pc := s.pcs[i];
    if pc.line == 295 then
      if pc.trade in s.table then
        s.(pcs := Goto(s, i, pc.(line := 300, loaded := s.table[pc.trade])))
      else
        s.(fault := true, pcs := s.pcs - {i})
    else if pc.line == 300 then
      s.(owner := s.owner - {pc.loaded}, fault := s.fault || pc.loaded !in s.owner,
         pcs := Goto(s, i, pc.(line := 302)))
    else if pc.line == 302 then
      s.(create := Some(i), pcs := Goto(s, i, pc.(line := 303)))
    else if pc.line == 303 then
      s.(refs := s.refs[pc.loaded := Refs(s, pc.loaded) - 1], pcs := Goto(s, i, pc.(line := 304)))
    else if pc.line == 304 then
      s.(table := if Refs(s, pc.loaded) == 0 then s.table - {pc.trade} else s.table,
         pcs := Goto(s, i, pc.(line := 307)))
    else
      s.(create := None, fault := s.fault || s.create.None?, pcs := s.pcs - {i})
  }

  /** `es` takes the empty lock table through the states `ss`. */
  ghost predicate IsRun(ss: seq<State>, es: seq<Event>) {
    && |ss| == |es| + 1
    && ss[0] == Empty
    && forall k | 0 <= k < |es| :: Enabled(ss[k], es[k]) && ss[k + 1] == Apply(ss[k], es[k])
  }

  // ---- Where a goroutine stands ----

  predicate HoldsCreate(pc: Pc) {
    282 <= pc.line <= 289 || 303 <= pc.line
  }

  predicate HoldsMu(pc: Pc) {
    295 <= pc.line <= 300
  }

  /** Past line 288 and not yet past line 303. */
  predicate Counted(pc: Pc) {
    288 < pc.line <= 303
  }

  predicate Attached(pc: Pc) {
    288 <= pc.line <= 304
  }

  ghost function Users(s: State, m: Mutex): set<Tid> {
    set i | i in s.pcs && Counted(s.pcs[i]) && s.pcs[i].m == m
  }

  // ---- The inductive invariant ----

  predicate IsLine(n: int) {
    n == 280 || n == 282 || n == 288 || n == 289 || n == 290 || n == 295 || n == 300 || n == 302 || n == 303 || n == 304 || n == 307
  }

  ghost predicate LineInv(s: State) {
    forall i | i in s.pcs :: IsLine(s.pcs[i].line)
  }

  ghost predicate CreateInv(s: State) {
    && (s.create.Some? ==> s.create.value in s.pcs && HoldsCreate(s.pcs[s.create.value]))
    && (forall i | i in s.pcs :: HoldsCreate(s.pcs[i]) ==> s.create == Some(i))
  }

  ghost predicate EntryInv(s: State) {
    forall i | i in s.pcs :: Entry(s, s.pcs[i])
  }

  ghost predicate Entry(s: State, pc: Pc) {
    && (Attached(pc) ==> pc.trade in s.table && s.table[pc.trade] == pc.m)
    && (300 <= pc.line <= 304 ==> pc.loaded == pc.m)
  }

  ghost predicate TableInv(s: State) {
    && (forall t | t in s.table :: s.table[t] < s.next)
    && (forall t, u | t in s.table && u in s.table && s.table[t] == s.table[u] :: t == u)
  }

  ghost predicate RefInv(s: State) {
    forall m: Mutex | m < s.next :: m in s.refs && s.refs[m] == |Users(s, m)|
  }

  ghost predicate MuInv(s: State) {
    && (forall m | m in s.owner :: s.owner[m] in s.pcs && HoldsMu(s.pcs[s.owner[m]]) && s.pcs[s.owner[m]].m == m)
    && (forall i | i in s.pcs && HoldsMu(s.pcs[i]) :: s.pcs[i].m in s.owner && s.owner[s.pcs[i].m] == i)
  }

  /** Every entry in the table is being used, about to be counted, or about to be deleted. */
  ghost predicate LiveInv(s: State) {
    forall t | t in s.table :: exists i :: AttachedTo(s, i, s.table[t])
  }

  ghost predicate Inv(s: State) {
    && !s.fault
    && LineInv(s)
    && CreateInv(s)
    && EntryInv(s)
    && TableInv(s)
    && RefInv(s)
    && MuInv(s)
    && LiveInv(s)
  }

  ghost predicate OthersStay(s: State, s': State, i: Tid) {
    forall j | j != i :: (j in s'.pcs <==> j in s.pcs) && (j in s.pcs ==> s'.pcs[j] == s.pcs[j])
  }

  lemma LockMovesOne(s: State, i: Tid)
    requires LineInv(s) && Enabled(s, Advance(i)) && s.pcs[i].line <= 290
    ensures OthersStay(s, Lock(s, i), i) && i in Lock(s, i).pcs && IsLine(Lock(s, i).pcs[i].line)
  {
    assert IsLine(s.pcs[i].line);
  }

  lemma UnlockMovesOne(s: State, i: Tid)
    requires LineInv(s) && Enabled(s, Advance(i)) && s.pcs[i].line > 290
    ensures OthersStay(s, Unlock(s, i), i)
    ensures i in Unlock(s, i).pcs ==> IsLine(Unlock(s, i).pcs[i].line)
  {
    assert IsLine(s.pcs[i].line);
  }

  lemma StepMovesOne(s: State, e: Event)
    requires LineInv(s) && Enabled(s, e)
    ensures OthersStay(s, Apply(s, e), e.i)
    ensures e.i in Apply(s, e).pcs ==> IsLine(Apply(s, e).pcs[e.i].line)
  {
    if e.Advance? {
      if s.pcs[e.i].line <= 290 { LockMovesOne(s, e.i); } else { UnlockMovesOne(s, e.i); }
    }
  }

  /** A goroutine moves down the source, on the same trade number, and leaves only from the end. */
  lemma StepMovesDown(s: State, i: Tid)
    requires LineInv(s) && Enabled(s, Advance(i))
    ensures var s' := Apply(s, Advance(i));
            && (i in s'.pcs ==> s'.pcs[i].trade == s.pcs[i].trade && s'.pcs[i].line > s.pcs[i].line)
            && (s.pcs[i].line < 295 ==> i in s'.pcs && s'.pcs[i].line <= 295)
  {
    assert IsLine(s.pcs[i].line);
  }

  lemma StepKeepsLine(s: State, e: Event)
    requires LineInv(s) && Enabled(s, e)
    ensures LineInv(Apply(s, e))
  {
    StepMovesOne(s, e);
  }

  lemma CreateAfter(s: State, i: Tid)
    requires LineInv(s) && CreateInv(s) && Enabled(s, Advance(i))
    ensures var s' := Apply(s, Advance(i));
            s'.create == (if i in s'.pcs && HoldsCreate(s'.pcs[i]) then Some(i)
                          else if HoldsCreate(s.pcs[i]) then None else s.create)
    ensures var s' := Apply(s, Advance(i)); i in s'.pcs && HoldsCreate(s'.pcs[i]) ==> HoldsCreate(s.pcs[i]) || s.create.None?
  {
    assert IsLine(s.pcs[i].line);
  }

  lemma CreateFrom(s: State, s': State, i: Tid)
    requires CreateInv(s) && OthersStay(s, s', i)
    requires s'.create == (if i in s'.pcs && HoldsCreate(s'.pcs[i]) then Some(i)
                           else if i in s.pcs && HoldsCreate(s.pcs[i]) then None else s.create)
    requires i in s'.pcs && HoldsCreate(s'.pcs[i]) ==> i in s.pcs && (HoldsCreate(s.pcs[i]) || s.create.None?)
    ensures CreateInv(s')
  {}

  lemma StepKeepsCreate(s: State, e: Event)
    requires LineInv(s) && CreateInv(s) && Enabled(s, e)
    ensures CreateInv(Apply(s, e))
  {
    StepMovesOne(s, e);
    if e.Advance? { CreateAfter(s, e.i); }
    CreateFrom(s, Apply(s, e), e.i);
  }

  /** Only line 282 adds an entry, a fresh one, and only line 304 removes one. */
  lemma TableAfter(s: State, i: Tid)
    requires LineInv(s) && Enabled(s, Advance(i))
    ensures var s', pc := Apply(s, Advance(i)), s.pcs[i];
            if pc.line == 282 && pc.trade !in s.table then s'.table == s.table[pc.trade := s.next] && s'.next == s.next + 1
            else if pc.line == 304 && Refs(s, pc.loaded) == 0 then s'.table == s.table - {pc.trade} && s'.next == s.next
            else s'.table == s.table && s'.next == s.next
  {
    assert IsLine(s.pcs[i].line);
  }

  lemma StepKeepsTable(s: State, e: Event)
    requires LineInv(s) && TableInv(s) && Enabled(s, e)
    ensures TableInv(Apply(s, e))
  {
    if e.Advance? {
      TableAfter(s, e.i);
      TableFrom(s, Apply(s, e), s.pcs[e.i].trade);
    }
  }

  lemma TableFrom(s: State, s': State, t: Trade)
    requires TableInv(s)
    requires || (s'.table == s.table[t := s.next] && s'.next == s.next + 1)
             || (s'.table == s.table - {t} && s'.next == s.next)
             || (s'.table == s.table && s'.next == s.next)
    ensures TableInv(s')
  {}

  /** An entry whose count is zero has no goroutine attached to it but the one deleting it. */
  lemma UnusedEntry(s: State, i: Tid, j: Tid)
    requires LineInv(s)
    requires CreateInv(s) && EntryInv(s) && TableInv(s) && RefInv(s)
    requires i in s.pcs && s.pcs[i].line == 304 && Refs(s, s.pcs[i].loaded) == 0
    requires j in s.pcs && j != i && Attached(s.pcs[j])
    ensures s.pcs[j].trade != s.pcs[i].trade
  {
    assert Entry(s, s.pcs[i]) && Entry(s, s.pcs[j]);
    assert |Users(s, s.pcs[i].m)| == 0;
    assert j !in Users(s, s.pcs[i].m);
    assert s.create == Some(i);
  }

  /** The goroutine that moves keeps its entry, or takes the one in the table. */
  lemma MoverEntry(s: State, i: Tid)
    requires LineInv(s) && EntryInv(s) && Enabled(s, Advance(i))
    ensures i in Apply(s, Advance(i)).pcs ==> Entry(Apply(s, Advance(i)), Apply(s, Advance(i)).pcs[i])
  {
    assert Entry(s, s.pcs[i]) && IsLine(s.pcs[i].line);
  }

  lemma OtherEntry(s: State, i: Tid, j: Tid)
    requires LineInv(s) && CreateInv(s) && EntryInv(s) && TableInv(s) && RefInv(s) && Enabled(s, Advance(i))
    requires j in s.pcs && j != i
    ensures Entry(Apply(s, Advance(i)), s.pcs[j])
  {
    assert Entry(s, s.pcs[j]);
    TableAfter(s, i);
    if s.pcs[i].line == 304 && Refs(s, s.pcs[i].loaded) == 0 && Attached(s.pcs[j]) {
      UnusedEntry(s, i, j);
    }
  }

  lemma StepKeepsEntry(s: State, e: Event)
    requires LineInv(s) && CreateInv(s) && EntryInv(s) && TableInv(s) && RefInv(s) && Enabled(s, e)
    ensures EntryInv(Apply(s, e))
  {
    StepMovesOne(s, e);
    if e.Advance? {
      MoverEntry(s, e.i);
      forall j | j in s.pcs && j != e.i ensures Entry(Apply(s, e), s.pcs[j]) { OtherEntry(s, e.i, j); }
    } else {
      forall j | j in s.pcs ensures Entry(Apply(s, e), s.pcs[j]) { assert Entry(s, s.pcs[j]); }
    }
    EntryFrom(s, Apply(s, e), e.i);
  }

  lemma EntryFrom(s: State, s': State, i: Tid)
    requires OthersStay(s, s', i) && (i in s'.pcs ==> Entry(s', s'.pcs[i]))
    requires forall j | j in s.pcs && j != i :: Entry(s', s.pcs[j])
    ensures EntryInv(s')
  {}

  lemma OwnerAfter(s: State, i: Tid)
    requires LineInv(s) && CreateInv(s) && EntryInv(s) && MuInv(s) && !s.fault && Enabled(s, Advance(i))
    ensures var s' := Apply(s, Advance(i));
            var pc := s.pcs[i];
            && !s'.fault
            && s'.owner == (if pc.line == 290 then s.owner[pc.m := i] else if pc.line == 300 then s.owner - {pc.m} else s.owner)
            && (i in s'.pcs && HoldsMu(s'.pcs[i]) <==> 290 <= pc.line < 300)
            && (i in s'.pcs && HoldsMu(s'.pcs[i]) ==> s'.pcs[i].m == pc.m)
  {
    assert Entry(s, s.pcs[i]) && IsLine(s.pcs[i].line);
  }

  lemma MuFrom(s: State, s': State, i: Tid)
    requires MuInv(s) && OthersStay(s, s', i)
    requires i in s.pcs && IsLine(s.pcs[i].line) && (s.pcs[i].line == 290 ==> s.pcs[i].m !in s.owner)
    requires var pc := s.pcs[i];
             && s'.owner == (if pc.line == 290 then s.owner[pc.m := i] else if pc.line == 300 then s.owner - {pc.m} else s.owner)
             && (i in s'.pcs && HoldsMu(s'.pcs[i]) <==> 290 <= pc.line < 300)
             && (i in s'.pcs && HoldsMu(s'.pcs[i]) ==> s'.pcs[i].m == pc.m)
    ensures MuInv(s')
  {}

  lemma StepKeepsMu(s: State, e: Event)
    requires LineInv(s) && CreateInv(s) && EntryInv(s) && MuInv(s) && !s.fault && Enabled(s, e)
    ensures MuInv(Apply(s, e)) && !Apply(s, e).fault
  {
    if e.Advance? {
      StepMovesOne(s, e);
      OwnerAfter(s, e.i);
      MuFrom(s, Apply(s, e), e.i);
    }
  }

  lemma CardinalityByOne(a: set<Tid>, b: set<Tid>, i: Tid)
    requires a - {i} == b - {i}
    ensures |b| - |a| == (if i in b then 1 else 0) - (if i in a then 1 else 0)
  {
    assert a == if i in a then (a - {i}) + {i} else a - {i};
    assert b == if i in b then (b - {i}) + {i} else b - {i};
  }

  /** Only the goroutine that moves can enter or leave a set of users. */
  lemma UsersAfter(s: State, s': State, i: Tid, m: Mutex)
    requires OthersStay(s, s', i)
    ensures |Users(s', m)| - |Users(s, m)| == (if i in Users(s', m) then 1 else 0) - (if i in Users(s, m) then 1 else 0)
  {
    CardinalityByOne(Users(s, m), Users(s', m), i);
  }

  /** Line 288 counts the goroutine in, line 303 counts it out, line 282 may add a fresh count of 0. */
  lemma RefsAfter(s: State, i: Tid)
    requires LineInv(s) && EntryInv(s) && Enabled(s, Advance(i))
    ensures var s', pc := Apply(s, Advance(i)), s.pcs[i];
            s'.refs == (if pc.line == 282 && pc.trade !in s.table then s.refs[s.next := 0]
                        else if pc.line == 288 then s.refs[pc.m := Refs(s, pc.m) + 1]
                        else if pc.line == 303 then s.refs[pc.m := Refs(s, pc.m) - 1]
                        else s.refs)
    ensures var s', pc := Apply(s, Advance(i)), s.pcs[i];
            (i in s'.pcs && Counted(s'.pcs[i]) <==> 288 <= pc.line < 303) && (pc.line >= 288 && i in s'.pcs ==> s'.pcs[i].m == pc.m)
  {
    assert Entry(s, s.pcs[i]) && IsLine(s.pcs[i].line);
  }

  lemma RefFrom(s: State, s': State, i: Tid, m: Mutex)
    requires OthersStay(s, s', i) && i in s.pcs && IsLine(s.pcs[i].line) && RefInv(s) && m < s'.next
    requires Attached(s.pcs[i]) ==> s.pcs[i].m < s.next
    requires s'.next == s.next || (s.pcs[i].line == 282 && s'.next == s.next + 1 && s'.refs == s.refs[s.next := 0])
    requires s'.next == s.next ==>
               s'.refs == (if s.pcs[i].line == 288 then s.refs[s.pcs[i].m := Refs(s, s.pcs[i].m) + 1]
                           else if s.pcs[i].line == 303 then s.refs[s.pcs[i].m := Refs(s, s.pcs[i].m) - 1]
                           else s.refs)
    requires i in s'.pcs && Counted(s'.pcs[i]) <==> 288 <= s.pcs[i].line < 303
    requires s.pcs[i].line >= 288 && i in s'.pcs ==> s'.pcs[i].m == s.pcs[i].m
    requires Users(s, s.next) == {}
    ensures m in s'.refs && s'.refs[m] == |Users(s', m)|
  {
    UsersAfter(s, s', i, m);
  }

  lemma FreshHasNoUsers(s: State)
    requires EntryInv(s) && TableInv(s)
    ensures Users(s, s.next) == {}
  {
    forall j | j in s.pcs ensures j !in Users(s, s.next) { assert Entry(s, s.pcs[j]); }
  }

  lemma StepKeepsRef(s: State, e: Event)
    requires LineInv(s) && EntryInv(s) && TableInv(s) && RefInv(s) && Enabled(s, e)
    ensures RefInv(Apply(s, e))
  {
    StepMovesOne(s, e);
    FreshHasNoUsers(s);
    if e.Advance? {
      assert IsLine(s.pcs[e.i].line) && Entry(s, s.pcs[e.i]);
      TableAfter(s, e.i);
      RefsAfter(s, e.i);
      forall m: Mutex | m < Apply(s, e).next
        ensures m in Apply(s, e).refs && Apply(s, e).refs[m] == |Users(Apply(s, e), m)|
      {
        RefFrom(s, Apply(s, e), e.i, m);
      }
    } else {
      forall m: Mutex | m < s.next ensures |Users(Apply(s, e), m)| == |Users(s, m)| { UsersAfter(s, Apply(s, e), e.i, m); }
    }
  }

  ghost predicate AttachedTo(s: State, i: Tid, m: Mutex) {
    i in s.pcs && Attached(s.pcs[i]) && s.pcs[i].m == m
  }

  /** A goroutine stays attached to its entry until it either deletes it or leaves it to another user. */
  lemma AttachedAfter(s: State, i: Tid, t: Trade)
    requires LineInv(s) && EntryInv(s) && TableInv(s) && RefInv(s) && Enabled(s, Advance(i))
    requires t in s.table && t in Apply(s, Advance(i)).table && AttachedTo(s, i, s.table[t])
    ensures AttachedTo(Apply(s, Advance(i)), i, s.table[t]) || exists j :: j != i && AttachedTo(s, j, s.table[t])
  {
    assert Entry(s, s.pcs[i]) && IsLine(s.pcs[i].line);
    if s.pcs[i].line == 304 {
      assert Users(s, s.table[t]) != {};
      var j :| j in Users(s, s.table[t]);
      assert AttachedTo(s, j, s.table[t]);
    }
  }

  lemma EntryStays(s: State, e: Event, t: Trade)
    requires LineInv(s) && Enabled(s, e) && t in Apply(s, e).table
    ensures t in s.table ==> Apply(s, e).table[t] == s.table[t]
    ensures t !in s.table ==> AttachedTo(Apply(s, e), e.i, Apply(s, e).table[t])
  {
    if e.Advance? { TableAfter(s, e.i); }
  }

  lemma StepKeepsLive(s: State, e: Event)
    requires LineInv(s) && EntryInv(s) && TableInv(s) && RefInv(s) && LiveInv(s) && Enabled(s, e)
    ensures LiveInv(Apply(s, e))
  {
    StepMovesOne(s, e);
    forall t | t in Apply(s, e).table
      ensures exists i :: AttachedTo(Apply(s, e), i, Apply(s, e).table[t])
    {
      EntryStays(s, e, t);
      if t in s.table {
        var i :| AttachedTo(s, i, s.table[t]);
        if e == Advance(i) { AttachedAfter(s, i, t); }
        LiveFrom(s, Apply(s, e), e.i, i, s.table[t]);
      }
    }
  }

  lemma LiveFrom(s: State, s': State, moved: Tid, i: Tid, m: Mutex)
    requires OthersStay(s, s', moved) && AttachedTo(s, i, m)
    requires i == moved ==> AttachedTo(s', i, m) || exists j :: j != i && AttachedTo(s, j, m)
    ensures exists j :: AttachedTo(s', j, m)
  {
    if i == moved && !AttachedTo(s', i, m) {
      var j :| j != i && AttachedTo(s, j, m);
      assert AttachedTo(s', j, m);
    } else {
      assert AttachedTo(s', i, m);
    }
  }

  lemma StepKeepsInv(s: State, e: Event)
    requires Inv(s) && Enabled(s, e)
    ensures Inv(Apply(s, e))
  {
    StepKeepsLine(s, e);
    StepKeepsCreate(s, e);
    StepKeepsTable(s, e);
    StepKeepsEntry(s, e);
    StepKeepsMu(s, e);
    StepKeepsRef(s, e);
    StepKeepsLive(s, e);
  }

  lemma {:induction false} RunKeepsInv(ss: seq<State>, es: seq<Event>, k: nat)
    requires IsRun(ss, es) && k < |ss|
    ensures Inv(ss[k])
  {
    if k > 0 {
      RunKeepsInv(ss, es, k - 1);
      StepKeepsInv(ss[k - 1], es[k - 1]);
    }
  }

  // ---- What every run satisfies ----

  /** At most one goroutine is between `LockOrder` and `UnlockOrder` for a trade number. */
  lemma MutualExclusion(ss: seq<State>, es: seq<Event>, k: nat, i: Tid, j: Tid)
    requires IsRun(ss, es) && k < |ss|
    requires i in ss[k].pcs && ss[k].pcs[i].line == 295
    requires j in ss[k].pcs && ss[k].pcs[j].line == 295
    requires ss[k].pcs[i].trade == ss[k].pcs[j].trade
    ensures i == j
  {
    RunKeepsInv(ss, es, k);
    InvExcludes(ss[k], i, j);
  }

  lemma InvExcludes(s: State, i: Tid, j: Tid)
    requires EntryInv(s) && MuInv(s)
    requires i in s.pcs && HoldsMu(s.pcs[i]) && j in s.pcs && HoldsMu(s.pcs[j]) && s.pcs[i].trade == s.pcs[j].trade
    ensures i == j
  {
    assert Entry(s, s.pcs[i]) && Entry(s, s.pcs[j]);
  }

  /** No mutex is ever unlocked while free, and `UnlockOrder` never takes its early return. */
  lemma NoFault(ss: seq<State>, es: seq<Event>, k: nat)
    requires IsRun(ss, es) && k < |ss|
    ensures !ss[k].fault
    ensures forall i | i in ss[k].pcs ::
              var pc := ss[k].pcs[i];
              && (pc.line == 289 || pc.line == 307 ==> ss[k].create == Some(i))
              && (pc.line == 295 ==> pc.trade in ss[k].table)
              && (pc.line == 300 ==> pc.loaded in ss[k].owner)
  {
    RunKeepsInv(ss, es, k);
    forall i | i in ss[k].pcs ensures Entry(ss[k], ss[k].pcs[i]) {}
  }

  /** The entry `UnlockOrder` loads is the one its caller locked, and its caller still owns it. */
  lemma UnlocksWhatItLocked(ss: seq<State>, es: seq<Event>, k: nat, i: Tid)
    requires IsRun(ss, es) && k < |ss| && i in ss[k].pcs && ss[k].pcs[i].line == 300
    ensures var pc := ss[k].pcs[i];
            pc.loaded == pc.m && pc.m in ss[k].owner && ss[k].owner[pc.m] == i
  {
    RunKeepsInv(ss, es, k);
    assert Entry(ss[k], ss[k].pcs[i]);
  }

  /** `refCount` is the number of goroutines past line 288 and not yet past line 303. */
  lemma RefCountIsUsers(ss: seq<State>, es: seq<Event>, k: nat, t: Trade)
    requires IsRun(ss, es) && k < |ss| && t in ss[k].table
    ensures var s := ss[k];
            Refs(s, s.table[t]) == |set i | i in s.pcs && s.pcs[i].trade == t && 288 < s.pcs[i].line <= 303|
  {
    RunKeepsInv(ss, es, k);
    var s := ss[k];
    var here := set i | i in s.pcs && s.pcs[i].trade == t && 288 < s.pcs[i].line <= 303;
    forall i | i in s.pcs ensures i in here <==> i in Users(s, s.table[t]) { assert Entry(s, s.pcs[i]); }
    assert here == Users(s, s.table[t]);
  }

  /** The table is empty whenever no goroutine is using the lock: entries do not leak. */
  lemma QuiescentTableIsEmpty(ss: seq<State>, es: seq<Event>, k: nat)
    requires IsRun(ss, es) && k < |ss| && ss[k].pcs == map[]
    ensures ss[k].table == map[] && ss[k].owner == map[] && ss[k].create == None
  {
    RunKeepsInv(ss, es, k);
    assert LiveInv(ss[k]) && MuInv(ss[k]) && CreateInv(ss[k]);
  }

  /** While any goroutine is in the lock code, some goroutine can take a step: the two
      lock levels cannot deadlock. */
  lemma DeadlockFree(ss: seq<State>, es: seq<Event>, k: nat, i: Tid)
    requires IsRun(ss, es) && k < |ss| && i in ss[k].pcs
    ensures exists j :: j in ss[k].pcs && Enabled(ss[k], Advance(j))
  {
    RunKeepsInv(ss, es, k);
    var s := ss[k];
    var j := if s.create.Some? then s.create.value
             else if s.pcs[i].line == 290 && s.pcs[i].m in s.owner then s.owner[s.pcs[i].m]
             else i;
    assert j in s.pcs && Enabled(s, Advance(j));
  }
}
