/**
What the multi-key actions do to the list of keys that get_key_status shows: deletions filter it,
switching a key changes one entry, and the recorded size and the three counts agree with it.
*/
module KeyViews {
  import opened Base
  import opened Text
  import opened MultiKey

  // ---- When a joined list of keys reads back as itself ----

  lemma {:induction false} JoinLength(ks: seq<string>)
    requires ks != []
    ensures |Join(ks, NL)| == Total(ks) + |ks| - 1
  {
    if |ks| > 1 { JoinLength(ks[1..]); }
  }

  lemma TrimSpaceShortens(s: string)
    ensures |TrimSpace(s)| <= |s|
  {
    TrimLeftSpec(s, IsSpace);
    TrimRightSpec(TrimLeft(s, IsSpace), IsSpace);
  }

  /** A text with brackets around it cannot be the array of its own lines, nor of more. */
  lemma ArrayIsNotItsText(parse: Parser, ks: seq<string>, more: seq<string>)
    requires IsJson(parse) && ks != [] && Parsed(parse, Join(ks, NL)).Some?
    ensures Parsed(parse, Join(ks, NL)).value != more + ks
  {
    JoinLength(ks);
    TrimSpaceShortens(Join(ks, NL));
    TotalAppend(more, ks);
  }

  lemma {:induction false} TotalAppend(a: seq<string>, b: seq<string>)
    ensures Total(a + b) == Total(a) + Total(b)
  {
    if a == [] {
      assert a + b == b;
    } else {
      TotalAppend(a[1..], b);
      assert (a + b)[1..] == a[1..] + b;
    }
  }

  /** Lines read back exactly when none holds a line break and none is lost at either end. */
  lemma LinesOfJoin(ks: seq<string>)
    requires ks != []
    ensures Lines(Join(ks, NL)) == ks <==> Free(ks, NL) && Trimmed(Join(ks, NL), Is(NL))
    ensures Free(ks, NL) ==> |Lines(Join(ks, NL))| <= |ks|
  {
    var s := Join(ks, NL);
    SplitIsFree(Trim(s, Is(NL)), NL);
    SplitTrimLength(s, NL);
    TrimShortens(s);
    if Free(ks, NL) { SplitJoin(ks, NL); }
  }

  lemma TrimShortens(s: string)
    ensures |Trim(s, Is(NL))| <= |s| && (|Trim(s, Is(NL))| == |s| ==> Trim(s, Is(NL)) == s)
  {
    TrimLeftSpec(s, Is(NL));
    TrimRightSpec(TrimLeft(s, Is(NL)), Is(NL));
  }

  lemma TrimmedJoin(ks: seq<string>)
    requires ks != [] && Free(ks, NL)
    ensures Join(ks, NL) != "" && Trimmed(Join(ks, NL), Is(NL)) <==> ks[0] != "" && ks[|ks| - 1] != ""
  {
    var s := Join(ks, NL);
    JoinEnds(ks, NL);
    assert ks[0] in ks && ks[|ks| - 1] in ks;
    if |ks| > 1 {
      if ks[0] == "" { assert s[0] == NL; }
      if ks[|ks| - 1] == "" { EndsInSeparator(ks); }
    }
  }

  lemma {:induction false} EndsInSeparator(ks: seq<string>)
    requires |ks| > 1 && ks[|ks| - 1] == ""
    ensures Join(ks, NL) != "" && Join(ks, NL)[|Join(ks, NL)| - 1] == NL
  {
    if |ks| > 2 { EndsInSeparator(ks[1..]); }
  }

  /** Keys that survive being written back: no line breaks, the ends not empty, and not together
      the text of a JSON array. */
  ghost predicate Stable(parse: Parser, ks: seq<string>) {
    ks != [] && Free(ks, NL) && ks[0] != "" && ks[|ks| - 1] != "" && Parsed(parse, Join(ks, NL)).None?
  }

  lemma StableIff(parse: Parser, ks: seq<string>)
    requires IsJson(parse) && ks != []
    ensures Keys(parse, Join(ks, NL)) == ks <==> Stable(parse, ks)
    ensures Stable(parse, ks) ==> Join(ks, NL) != "" && CountedKeys(parse, Join(ks, NL)) == ks
  {
    LinesOfJoin(ks);
    if Free(ks, NL) { TrimmedJoin(ks); }
    if Parsed(parse, Join(ks, NL)).Some? {
      ArrayIsNotItsText(parse, ks, []);
      assert [] + ks == ks;
    }
  }

  // ---- Deleting ----

  /** After a deletion each surviving key has its old entry under its new index. */
  lemma EntryFollows(parse: Parser, c: Channel, drop: set<nat>, forget: bool, j: nat)
    requires var after := Saved(parse, c, Without(parse, c, drop, forget));
             j < |Remaining(parse, c, drop)| <= after.size
    ensures var n := |Keys(parse, c.key)|;
            var after := Saved(parse, c, Without(parse, c, drop, forget));
            EntryAt(after, Remaining(parse, c, drop)[j], j) == Kept(View(parse, c), n, drop)[j]
  {
    var n := |Keys(parse, c.key)|;
    KeptAt(Keys(parse, c.key), n, drop, j);
    KeptAt(View(parse, c), n, drop, j);
    MovedAt(Disabled(c), n, drop, j);
    MovedAt(Times(c, forget), n, drop, j);
    MovedAt(Reasons(c, forget), n, drop, j);
  }

  ghost predicate Filtered(parse: Parser, c: Channel, after: Channel, drop: set<nat>) {
    View(parse, after) == Kept(View(parse, c), |View(parse, c)|, drop)
  }

  lemma ViewIs(parse: Parser, c: Channel, entries: seq<Entry>)
    requires |entries| == |Keys(parse, c.key)|
    requires forall i | 0 <= i < |entries| :: entries[i] == EntryAt(c, Keys(parse, c.key)[i], i)
    ensures View(parse, c) == entries
  {}

  lemma StableFilters(parse: Parser, c: Channel, drop: set<nat>, forget: bool)
    requires IsJson(parse) && Stable(parse, Remaining(parse, c, drop))
    ensures Filtered(parse, c, Saved(parse, c, Without(parse, c, drop, forget)), drop)
  {
    var after := Saved(parse, c, Without(parse, c, drop, forget));
    var remaining := Remaining(parse, c, drop);
    StableIff(parse, remaining);
    assert Keys(parse, after.key) == remaining && after.size == |remaining|;
    var filtered := Kept(View(parse, c), |View(parse, c)|, drop);
    forall j | 0 <= j < |filtered| ensures filtered[j] == EntryAt(after, remaining[j], j) { EntryFollows(parse, c, drop, forget, j); }
    ViewIs(parse, after, filtered);
  }

  lemma FilteredIsStable(parse: Parser, c: Channel, drop: set<nat>, forget: bool)
    requires IsJson(parse) && |Remaining(parse, c, drop)| < |Keys(parse, c.key)|
    requires Filtered(parse, c, Saved(parse, c, Without(parse, c, drop, forget)), drop)
    ensures Stable(parse, Remaining(parse, c, drop))
  {
    var remaining := Remaining(parse, c, drop);
    ViewShowsKeys(parse, c, Saved(parse, c, Without(parse, c, drop, forget)), drop);
    assert remaining != [];
    StableIff(parse, remaining);
  }

  /** The list after a deletion is the old list without the dropped keys exactly when the
      remaining keys are stable. */
  lemma DeletionIff(parse: Parser, c: Channel, drop: set<nat>, forget: bool)
    requires IsJson(parse) && |Remaining(parse, c, drop)| < |Keys(parse, c.key)|
    ensures Filtered(parse, c, Saved(parse, c, Without(parse, c, drop, forget)), drop) <==> Stable(parse, Remaining(parse, c, drop))
  {
    if Stable(parse, Remaining(parse, c, drop)) {
      StableFilters(parse, c, drop, forget);
    } else if Filtered(parse, c, Saved(parse, c, Without(parse, c, drop, forget)), drop) {
      FilteredIsStable(parse, c, drop, forget);
    }
  }

  lemma ViewShowsKeys(parse: Parser, c: Channel, after: Channel, drop: set<nat>)
    requires Filtered(parse, c, after, drop)
    ensures Keys(parse, after.key) == Remaining(parse, c, drop)
  {
    var n := |Keys(parse, c.key)|;
    forall j | 0 <= j < |Survivors(n, drop)| ensures Keys(parse, after.key)[j] == Remaining(parse, c, drop)[j] {
      KeptAt(Keys(parse, c.key), n, drop, j);
      KeptAt(View(parse, c), n, drop, j);
      assert View(parse, after)[j].key == Keys(parse, after.key)[j];
    }
  }

  function RemovedAt<T>(xs: seq<T>, i: nat): seq<T>
    requires i < |xs|
  {
    xs[..i] + xs[i + 1..|xs|]
  }

  lemma {:induction false} KeptAll<T>(xs: seq<T>, n: nat, i: nat)
    requires n <= |xs| && n <= i
    ensures Kept(xs, n, {i}) == xs[..n]
  {
    if n > 0 { KeptAll(xs, n - 1, i); }
  }

  lemma {:induction false} KeptBut<T>(xs: seq<T>, n: nat, i: nat)
    requires i < n <= |xs|
    ensures Kept(xs, n, {i}) == xs[..i] + xs[i + 1..n]
  {
    if n == i + 1 {
      KeptAll(xs, i, i);
      assert xs[i + 1..n] == [];
    } else {
      KeptBut(xs, n - 1, i);
      assert xs[i + 1..n] == xs[i + 1..n - 1] + [xs[n - 1]];
    }
  }

  lemma DeleteKeyIff(parse: Parser, c: Channel, i: nat)
    requires IsJson(parse) && !Refused(parse, c, DeleteKey(i)) && i < |Keys(parse, c.key)|
    ensures View(parse, Done(parse, c, DeleteKey(i))) == RemovedAt(View(parse, c), i) <==> Stable(parse, RemovedAt(Keys(parse, c.key), i))
  {
    KeptBut(View(parse, c), |View(parse, c)|, i);
    KeptBut(Keys(parse, c.key), |Keys(parse, c.key)|, i);
    DeletionIff(parse, c, {i}, false);
  }

  /** delete_disabled_keys keeps exactly the keys that are not auto-disabled. */
  lemma DeleteDisabledIff(parse: Parser, c: Channel)
    requires IsJson(parse) && !Refused(parse, c, DeleteDisabled)
    ensures View(parse, Done(parse, c, DeleteDisabled)) == NotAuto(View(parse, c)) <==>
            Stable(parse, Remaining(parse, c, AutoDisabled(parse, c)))
  {
    var i :| i in AutoDisabled(parse, c);
    SurvivorsFewer(|Keys(parse, c.key)|, AutoDisabled(parse, c), i);
    DeletionIff(parse, c, AutoDisabled(parse, c), true);
    KeptNotAuto(View(parse, c), AutoDisabled(parse, c), |View(parse, c)|);
    assert View(parse, c)[..|View(parse, c)|] == View(parse, c);
  }

  lemma {:induction false} SurvivorsFewer(n: nat, drop: set<nat>, i: nat)
    ensures |Survivors(n, drop)| <= n && (i < n && i in drop ==> |Survivors(n, drop)| < n)
  {
    if n > 0 { SurvivorsFewer(n - 1, drop, i); }
  }

  function NotAuto(view: seq<Entry>): seq<Entry> {
    if view == [] then []
    else NotAuto(view[..|view| - 1]) + if view[|view| - 1].status == AUTO_DISABLED then [] else [view[|view| - 1]]
  }

  lemma {:induction false} KeptNotAuto(view: seq<Entry>, drop: set<nat>, n: nat)
    requires n <= |view| && forall i | 0 <= i < |view| :: i in drop <==> view[i].status == AUTO_DISABLED
    ensures Kept(view, n, drop) == NotAuto(view[..n])
  {
    if n > 0 {
      KeptNotAuto(view, drop, n - 1);
      assert view[..n][..n - 1] == view[..n - 1];
    }
  }

  /** When every key is auto-disabled the empty key is not written: all keys stay and come back
      enabled. */
  lemma DeletingAllEnablesAll(parse: Parser, c: Channel)
    requires !Refused(parse, c, DeleteDisabled) && Remaining(parse, c, AutoDisabled(parse, c)) == []
    ensures |View(parse, Done(parse, c, DeleteDisabled))| == |View(parse, c)| > 0
    ensures forall i | 0 <= i < |View(parse, c)| ::
              View(parse, Done(parse, c, DeleteDisabled))[i] == Entry(View(parse, c)[i].key, ENABLED, 0, "")
  {
    var after := Done(parse, c, DeleteDisabled);
    var i :| i in AutoDisabled(parse, c);
    assert after.key == c.key;
    forall j ensures j !in after.status { MovedAt(Disabled(c), |Keys(parse, c.key)|, AutoDisabled(parse, c), j); }
  }

  // ---- What every action keeps ----

  /** The recorded size is the number of keys Update counts, and every status belongs to one. */
  ghost predicate Sound(parse: Parser, c: Channel) {
    c.size == |CountedKeys(parse, c.key)| && forall i | i in c.status :: i < c.size && ENABLED <= c.status[i] <= AUTO_DISABLED
  }

  ghost predicate Legal(status: map<nat, int>) {
    forall i | i in status :: ENABLED <= status[i] <= AUTO_DISABLED
  }

  lemma SavedIsSound(parse: Parser, c: Channel, next: Channel)
    requires Legal(next.status)
    ensures Sound(parse, Saved(parse, c, next))
  {}

  lemma ActionKeepsSound(parse: Parser, c: Channel, a: Action)
    requires Sound(parse, c)
    ensures Sound(parse, Done(parse, c, a))
  {
    if !Refused(parse, c, a) {
      match a {
        case DisableKey(i) => SavedIsSound(parse, c, c.(status := c.status[i := MANUALLY_DISABLED]));
        case EnableKey(i) => SavedIsSound(parse, c, c.(status := c.status - {i}, time := c.time - {i}, reason := c.reason - {i}));
        case EnableAll => SavedIsSound(parse, c, c.(status := map[], time := map[], reason := map[]));
        case DisableAll => SavedIsSound(parse, c, c.(status := AllDisabled(c)));
        case DeleteKey(i) => DeletionIsSound(parse, c, {i}, false);
        case DeleteDisabled => DeletionIsSound(parse, c, AutoDisabled(parse, c), true);
        case Append(r) => SavedIsSound(parse, c, c.(key := AppendedKey(parse, c, r)));
      }
    }
  }

  lemma DeletionIsSound(parse: Parser, c: Channel, drop: set<nat>, forget: bool)
    requires Sound(parse, c)
    ensures Sound(parse, Saved(parse, c, Without(parse, c, drop, forget)))
  {
    var next := Without(parse, c, drop, forget);
    forall j | j in next.status ensures ENABLED <= next.status[j] <= AUTO_DISABLED {
      MovedAt(Disabled(c), |Keys(parse, c.key)|, drop, j);
    }
    SavedIsSound(parse, c, next);
  }

  function DoneAll(parse: Parser, c: Channel, actions: seq<Action>): Channel
    decreases |actions|
  {
    if actions == [] then c else DoneAll(parse, Done(parse, c, actions[0]), actions[1..])
  }

  /** Over every sequence of actions: the size is right, no status is out of range, and the three
      counts add up to the number of keys shown; the size is the number of keys shown unless the
      stored text is the empty JSON array. */
  lemma {:induction false} RunStaysSound(parse: Parser, c: Channel, actions: seq<Action>)
    requires Sound(parse, c)
    ensures var d := DoneAll(parse, c, actions);
            && Sound(parse, d)
            && (d.size == |View(parse, d)| <==> Parsed(parse, d.key) != Some([]))
            && Number(View(parse, d), ENABLED) + Number(View(parse, d), MANUALLY_DISABLED) + Number(View(parse, d), AUTO_DISABLED)
               == |View(parse, d)|
    decreases |actions|
  {
    if actions == [] {
      SoundCounts(parse, c);
      TrimOfEmpty();
    } else {
      ActionKeepsSound(parse, c, actions[0]);
      RunStaysSound(parse, Done(parse, c, actions[0]), actions[1..]);
    }
  }

  lemma TrimOfEmpty()
    ensures !Bracketed("")
  {}

  function Number(view: seq<Entry>, status: int): nat {
    if view == [] then 0 else Number(view[..|view| - 1], status) + if view[|view| - 1].status == status then 1 else 0
  }

  lemma {:induction false} NumbersAddUp(view: seq<Entry>)
    requires forall e | e in view :: ENABLED <= e.status <= AUTO_DISABLED
    ensures Number(view, ENABLED) + Number(view, MANUALLY_DISABLED) + Number(view, AUTO_DISABLED) == |view|
  {
    if view != [] { NumbersAddUp(view[..|view| - 1]); }
  }

  lemma SoundCounts(parse: Parser, c: Channel)
    requires Sound(parse, c)
    ensures var view := View(parse, c);
            Number(view, ENABLED) + Number(view, MANUALLY_DISABLED) + Number(view, AUTO_DISABLED) == |view|
  {
    NumbersAddUp(View(parse, c));
  }

  // ---- Disabling and enabling ----

  lemma SavedInPlace(parse: Parser, c: Channel, next: Channel)
    requires Sound(parse, c) && next.key == c.key && forall i | i in next.status :: i < c.size
    ensures Saved(parse, c, next) == next.(size := c.size)
  {
    assert Pruned(next.status, c.size) == next.status;
  }

  /** Disabling and enabling a key change its entry and no other. */
  lemma SwitchShowsOne(parse: Parser, c: Channel, i: nat)
    requires Sound(parse, c) && i < c.size == |Keys(parse, c.key)|
    ensures var off := EntryAt(c.(status := map[i := MANUALLY_DISABLED]), Keys(parse, c.key)[i], i);
            View(parse, Done(parse, c, DisableKey(i))) == View(parse, c)[i := off] && off.status == MANUALLY_DISABLED
    ensures View(parse, Done(parse, c, EnableKey(i))) == View(parse, c)[i := Entry(Keys(parse, c.key)[i], ENABLED, 0, "")]
  {
    DisableShows(parse, c, i);
    EnableShows(parse, c, i);
  }

  lemma DisableShows(parse: Parser, c: Channel, i: nat)
    requires Sound(parse, c) && i < c.size == |Keys(parse, c.key)|
    ensures var off := EntryAt(c.(status := map[i := MANUALLY_DISABLED]), Keys(parse, c.key)[i], i);
            View(parse, Done(parse, c, DisableKey(i))) == View(parse, c)[i := off]
  {
    var next := c.(status := c.status[i := MANUALLY_DISABLED]);
    SavedInPlace(parse, c, next);
    var off := EntryAt(c.(status := map[i := MANUALLY_DISABLED]), Keys(parse, c.key)[i], i);
    ViewIs(parse, next, View(parse, c)[i := off]);
  }

  lemma EnableShows(parse: Parser, c: Channel, i: nat)
    requires Sound(parse, c) && i < c.size == |Keys(parse, c.key)|
    ensures View(parse, Done(parse, c, EnableKey(i))) == View(parse, c)[i := Entry(Keys(parse, c.key)[i], ENABLED, 0, "")]
  {
    var next := c.(status := c.status - {i}, time := c.time - {i}, reason := c.reason - {i});
    SavedInPlace(parse, c, next);
    ViewIs(parse, next, View(parse, c)[i := Entry(Keys(parse, c.key)[i], ENABLED, 0, "")]);
  }

  /** Enabling a key undoes disabling it. */
  lemma EnableUndoesDisable(parse: Parser, c: Channel, i: nat)
    requires Sound(parse, c) && i < c.size && i !in c.status && i !in c.time && i !in c.reason
    ensures Done(parse, Done(parse, c, DisableKey(i)), EnableKey(i)) == c
  {
    var off := c.(status := c.status[i := MANUALLY_DISABLED]);
    SavedInPlace(parse, c, off);
    ActionKeepsSound(parse, c, DisableKey(i));
    SavedInPlace(parse, off, off.(status := off.status - {i}, time := c.time - {i}, reason := c.reason - {i}));
    assert off.status - {i} == c.status && c.time - {i} == c.time && c.reason - {i} == c.reason;
  }

  /** Disabling all leaves no key enabled and the disabled ones as they were; enabling all leaves
      none disabled. */
  lemma SwitchAllShows(parse: Parser, c: Channel, i: nat)
    requires Sound(parse, c) && i < c.size == |Keys(parse, c.key)|
    ensures var off := View(parse, Done(parse, c, DisableAll));
            |off| == c.size && off[i].status == (if View(parse, c)[i].status == ENABLED then MANUALLY_DISABLED else View(parse, c)[i].status)
            && (View(parse, c)[i].status != ENABLED ==> off[i] == View(parse, c)[i])
    ensures var on := View(parse, Done(parse, c, EnableAll));
            |on| == c.size && on[i] == Entry(View(parse, c)[i].key, ENABLED, 0, "")
  {
    SavedInPlace(parse, c, c.(status := AllDisabled(c)));
    SavedInPlace(parse, c, c.(status := map[], time := map[], reason := map[]));
  }

  // ---- What is shown of a stored channel ----

  /** The keys are the lines of the stored text, or the elements of the array it is; each is shown
      with its status, enabled unless another is stored, and with time and reason if it is not. */
  lemma ShownKeys(parse: Parser, c: Channel, ks: seq<string>, i: nat)
    requires c.key != ""
    requires ks == if TrimSpace(c.key) != "" && TrimSpace(c.key)[0] == '[' && parse(TrimSpace(c.key)).Some?
                   then parse(TrimSpace(c.key)).value else Split(Trim(c.key, Is('\n')), '\n')
    requires i < |ks|
    ensures |View(parse, c)| == |ks|
    ensures var e := View(parse, c)[i];
            && e.key == ks[i]
            && (i !in c.status || c.status[i] == 1 ==> e == Entry(ks[i], 1, 0, ""))
            && (i in c.status && c.status[i] != 1 ==>
                  && e.status == c.status[i] && (i in c.time ==> e.time == c.time[i]) && (i !in c.time ==> e.time == 0)
                  && (i in c.reason ==> e.reason == c.reason[i]) && (i !in c.reason ==> e.reason == ""))
  {}

  function WithStatus(view: seq<Entry>, status: int): set<nat> {
    set i | 0 <= i < |view| && view[i].status == status
  }

  lemma WithStatusNext(view: seq<Entry>, e: Entry, status: int)
    ensures WithStatus(view + [e], status) == WithStatus(view, status) + if e.status == status then {|view|} else {}
  {}

  /** The counts are numbers of keys. */
  lemma {:induction false} NumberCounts(view: seq<Entry>, status: int)
    ensures Number(view, status) == |WithStatus(view, status)|
  {
    if view != [] {
      var front, last := view[..|view| - 1], view[|view| - 1];
      NumberCounts(front, status);
      WithStatusNext(front, last, status);
      assert view == front + [last];
    }
  }

  // ---- What is refused, and what a deletion writes ----

  lemma OutOfRangeRefused(parse: Parser, c: Channel, i: int)
    requires i < 0 || i >= c.size
    ensures Done(parse, c, DisableKey(i)) == c && Done(parse, c, EnableKey(i)) == c && Done(parse, c, DeleteKey(i)) == c
  {}

  lemma NothingToDoRefused(parse: Parser, c: Channel)
    ensures (forall i | 0 <= i < c.size :: i in c.status && c.status[i] != 1) ==> Done(parse, c, DisableAll) == c
    ensures (forall i | 0 <= i < |Keys(parse, c.key)| :: i !in c.status || c.status[i] != 3) ==> Done(parse, c, DeleteDisabled) == c
  {}

  /** delete_key writes the other keys, in their order; the only key stays. */
  lemma DeleteKeyWrites(parse: Parser, c: Channel, i: nat)
    requires i < c.size && i < |Keys(parse, c.key)|
    ensures |Keys(parse, c.key)| == 1 ==> Done(parse, c, DeleteKey(i)) == c
    ensures |Keys(parse, c.key)| > 1 ==>
              var rest := Join(Keys(parse, c.key)[..i] + Keys(parse, c.key)[i + 1..], NL);
              Done(parse, c, DeleteKey(i)).key == if rest == "" then c.key else rest
  {
    var ks := Keys(parse, c.key);
    KeptBut(ks, |ks|, i);
    assert ks[i + 1..|ks|] == ks[i + 1..];
  }

  /** After delete_key each remaining key has the time and reason it had. */
  lemma DeleteKeyMoves(parse: Parser, c: Channel, i: nat, j: nat)
    requires i < c.size && |Keys(parse, c.key)| > 1
    ensures var k, after := Survivors(|Keys(parse, c.key)|, {i}), Done(parse, c, DeleteKey(i));
            && (j in after.time <==> j < |k| && k[j] in c.time) && (j in after.time ==> after.time[j] == c.time[k[j]])
            && (j in after.reason <==> j < |k| && k[j] in c.reason) && (j in after.reason ==> after.reason[j] == c.reason[k[j]])
  {
    var n := |Keys(parse, c.key)|;
    SomeSurvive(n, i);
    MovedAt(c.time, n, {i}, j);
    MovedAt(c.reason, n, {i}, j);
  }

  lemma SomeSurvive(n: nat, i: nat)
    requires n > 1
    ensures Survivors(n, {i}) != []
  {
    SurvivorsSpec(n, {i});
    assert (if i == 0 then 1 else 0) in Survivors(n, {i});
  }

  /** After delete_disabled_keys only those that are not enabled have. */
  lemma DeleteDisabledMoves(parse: Parser, c: Channel, j: nat)
    requires exists i :: 0 <= i < |Keys(parse, c.key)| && i in c.status && c.status[i] == 3
    ensures var k, after := Survivors(|Keys(parse, c.key)|, AutoDisabled(parse, c)), Done(parse, c, DeleteDisabled);
            && (j in after.time <==> j < |k| && k[j] in c.time && k[j] in c.status && c.status[k[j]] != 1)
            && (j in after.time ==> after.time[j] == c.time[k[j]])
            && (j in after.reason <==> j < |k| && k[j] in c.reason && k[j] in c.status && c.status[k[j]] != 1)
            && (j in after.reason ==> after.reason[j] == c.reason[k[j]])
  {
    var n, drop := |Keys(parse, c.key)|, AutoDisabled(parse, c);
    var i :| 0 <= i < n && i in c.status && c.status[i] == 3;
    assert i in drop;
    MovedAt(Times(c, true), n, drop, j);
    MovedAt(Reasons(c, true), n, drop, j);
  }
}
