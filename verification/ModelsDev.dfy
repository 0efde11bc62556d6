/**
The models.dev price selection of controller/ratio_sync.go: for each model, one candidate is
folded out of the prices that all providers offer. Costs are reals; a Go map is read in an
arbitrary order, which `KeysInSomeOrder` leaves open, before it is sorted.
*/
module ModelsDev {
  import opened Base
  import opened Differences

  /** models.dev prices of one model; any of them may be missing. */
  datatype Cost = Cost(input: Option<real>, output: Option<real>, cacheRead: Option<real>)

  datatype Candidate = Candidate(provider: string, input: real, output: Option<real>, cacheRead: Option<real>)

  type Catalogue = map<string, map<string, Cost>>

  function BuildCandidate(provider: string, cost: Cost): Option<Candidate> {
    if cost.input.None? || cost.input.value < 0.0 then None
    else if cost.output.Some? && cost.output.value < 0.0 then None
    else if cost.input.value == 0.0 && cost.output.Some? && cost.output.value > 0.0 then None
    else
      var cacheRead := if cost.cacheRead.Some? && cost.cacheRead.value >= 0.0 then cost.cacheRead else None;
      Some(Candidate(provider, cost.input.value, cost.output, cacheRead))
  }

  predicate ShouldReplace(current: Candidate, next: Candidate) {
    if (current.input > 0.0) != (next.input > 0.0) then next.input > 0.0
    else if next.input > 0.0 && !NearlyEqual(next.input, current.input) then next.input < current.input
    else Below(next.provider, current.provider)
  }

  // ---- The order of strings ----

  predicate Below(a: string, b: string) {
    b != [] && (a == [] || a[0] < b[0] || (a[0] == b[0] && Below(a[1..], b[1..])))
  }

  lemma {:induction false} BelowTransitive(a: string, b: string, c: string)
    requires Below(a, b) && Below(b, c)
    ensures Below(a, c)
  {
    if a != [] && a[0] == b[0] == c[0] { BelowTransitive(a[1..], b[1..], c[1..]); }
  }

  lemma {:induction false} BelowTotal(a: string, b: string)
    ensures a == b || Below(a, b) || Below(b, a)
  {
    if a != [] && b != [] && a[0] == b[0] {
      BelowTotal(a[1..], b[1..]);
      assert a == [a[0]] + a[1..] && b == [b[0]] + b[1..];
    }
  }

  lemma {:induction false} BelowIrreflexive(a: string)
    ensures !Below(a, a)
  {
    if a != [] { BelowIrreflexive(a[1..]); }
  }

  ghost predicate Ascending(s: seq<string>) {
    forall i, j :: 0 <= i < j < |s| ==> Below(s[i], s[j])
  }

  ghost predicate Enumerates(s: seq<string>, keys: set<string>) {
    forall x :: x in s <==> x in keys
  }

  /** A set has one ascending enumeration, so the order in which a map was read is lost. */
  lemma {:induction false} EnumerationUnique(s: seq<string>, t: seq<string>, keys: set<string>)
    requires Ascending(s) && Ascending(t) && Enumerates(s, keys) && Enumerates(t, keys)
    ensures s == t
    decreases |s|
  {
    EmptyEnumeration(s, keys);
    EmptyEnumeration(t, keys);
    if s != [] {
      HeadIsLeast(s, keys);
      HeadIsLeast(t, keys);
      BelowNotBoth(s[0], t[0]);
      TailEnumerates(s, keys);
      TailEnumerates(t, keys);
      EnumerationUnique(s[1..], t[1..], keys - {s[0]});
      assert s == [s[0]] + s[1..] && t == [t[0]] + t[1..];
    }
  }

  lemma EmptyEnumeration(s: seq<string>, keys: set<string>)
    requires Enumerates(s, keys)
    ensures s == [] <==> keys == {}
  {
    if s != [] { assert s[0] in keys; }
  }

  lemma BelowNotBoth(a: string, b: string)
    requires (a == b || Below(a, b)) && (a == b || Below(b, a))
    ensures a == b
  {
    if a != b {
      BelowTransitive(a, b, a);
      BelowIrreflexive(a);
    }
  }

  lemma HeadIsLeast(s: seq<string>, keys: set<string>)
    requires s != [] && Ascending(s) && Enumerates(s, keys)
    ensures forall x | x in keys :: x == s[0] || Below(s[0], x)
  {
    forall x | x in keys ensures x == s[0] || Below(s[0], x) {
      var i :| 0 <= i < |s| && s[i] == x;
    }
  }

  lemma TailEnumerates(s: seq<string>, keys: set<string>)
    requires s != [] && Ascending(s) && Enumerates(s, keys)
    ensures Ascending(s[1..]) && Enumerates(s[1..], keys - {s[0]})
  {
    BelowIrreflexive(s[0]);
    assert s == [s[0]] + s[1..];
    assert forall i :: 1 <= i < |s| ==> Below(s[0], s[i]);
    assert s[0] !in s[1..];
  }

  // ---- sort.Strings ----

  method KeysInSomeOrder<V>(m: map<string, V>) returns (s: seq<string>)
    ensures Enumerates(s, m.Keys) && forall i, j :: 0 <= i < j < |s| ==> s[i] != s[j]
  {
    s := [];
    var todo := m.Keys;
    while todo != {}
      invariant todo <= m.Keys && Enumerates(s, m.Keys - todo)
      invariant forall i, j :: 0 <= i < j < |s| ==> s[i] != s[j]
      decreases todo
    {
      var x :| x in todo;
      s := s + [x];
      todo := todo - {x};
    }
  }

  method InsertInOrder(s: seq<string>, x: string) returns (t: seq<string>)
    requires Ascending(s) && x !in s
    ensures Ascending(t) && forall y :: y in t <==> y in s || y == x
  {
    var k := |s|;
    while k > 0 && Below(x, s[k - 1])
      invariant 0 <= k <= |s| && forall i :: k <= i < |s| ==> Below(x, s[i])
    {
      k := k - 1;
    }
    t := s[..k] + [x] + s[k..];
    BeforeIsBelow(s, k, x);
    assert s == s[..k] + s[k..];
  }

  lemma BeforeIsBelow(s: seq<string>, k: nat, x: string)
    requires k <= |s| && Ascending(s) && x !in s && (k == 0 || !Below(x, s[k - 1]))
    ensures forall i :: 0 <= i < k ==> Below(s[i], x)
  {
    if k > 0 {
      BelowTotal(x, s[k - 1]);
      forall i | 0 <= i < k - 1 ensures Below(s[i], x) { BelowTransitive(s[i], s[k - 1], x); }
    }
  }

  method SortStrings(s: seq<string>) returns (t: seq<string>)
    requires forall i, j :: 0 <= i < j < |s| ==> s[i] != s[j]
    ensures Ascending(t) && forall x :: x in t <==> x in s
  {
    t := [];
    for i := 0 to |s|
      invariant Ascending(t) && forall x :: x in t <==> x in s[..i]
    {
      assert s[i] !in s[..i];
      t := InsertInOrder(t, s[i]);
      assert s[..i + 1] == s[..i] + [s[i]];
    }
    assert s[..|s|] == s;
  }

  // ---- The fold ----

  function Lookup<V>(m: map<string, V>, k: string): Option<V> {
    if k in m then Some(m[k]) else None
  }

  function Offer(data: Catalogue, p: string, m: string): Option<Candidate> {
    if p in data && m in data[p] then BuildCandidate(p, data[p][m]) else None
  }

  function Consider(current: Option<Candidate>, next: Option<Candidate>): Option<Candidate> {
    if next.Some? && (current.None? || ShouldReplace(current.value, next.value)) then next else current
  }

  /** The choice for one model after the first `n` providers. */
  function Chosen(data: Catalogue, ps: seq<string>, n: nat, m: string): Option<Candidate>
    requires n <= |ps|
  {
    if n == 0 then None else Consider(Chosen(data, ps, n - 1, m), Offer(data, ps[n - 1], m))
  }

  method OfferModels(data: Catalogue, p: string, selected: map<string, Candidate>) returns (next: map<string, Candidate>)
    requires p in data
    ensures forall m :: Lookup(next, m) == Consider(Lookup(selected, m), Offer(data, p, m))
  {
    next := selected;
    var models := data[p];
    if |models| == 0 { return; }
    var names := KeysInSomeOrder(models);
    names := SortStrings(names);
    for i := 0 to |names|
      invariant forall m :: Lookup(next, m) ==
                            if m in names[..i] then Consider(Lookup(selected, m), Offer(data, p, m)) else Lookup(selected, m)
    {
      var name := names[i];
      BelowIrreflexive(name);
      assert name !in names[..i];
      assert names[..i + 1] == names[..i] + [name];
      var candidate := BuildCandidate(p, models[name]);
      if candidate.Some? && (name !in next || ShouldReplace(next[name], candidate.value)) {
        next := next[name := candidate.value];
      }
    }
    assert names[..|names|] == names;
  }

  ghost predicate ChosenFrom(selected: map<string, Candidate>, data: Catalogue, ps: seq<string>) {
    forall m :: Lookup(selected, m) == Chosen(data, ps, |ps|, m)
  }

  ghost predicate Selects(selected: map<string, Candidate>, data: Catalogue) {
    exists ps :: Ascending(ps) && Enumerates(ps, data.Keys) && ChosenFrom(selected, data, ps)
  }

  method SelectCandidates(data: Catalogue) returns (selected: map<string, Candidate>)
    ensures Selects(selected, data)
  {
    var providers := KeysInSomeOrder(data);
    providers := SortStrings(providers);
    selected := map[];
    for i := 0 to |providers|
      invariant forall m :: Lookup(selected, m) == Chosen(data, providers, i, m)
    {
      selected := OfferModels(data, providers[i], selected);
    }
    assert ChosenFrom(selected, data, providers);
  }

  /** The result does not depend on the order in which the maps were read. */
  lemma SelectionUnique(a: map<string, Candidate>, b: map<string, Candidate>, data: Catalogue)
    requires Selects(a, data) && Selects(b, data)
    ensures a == b
  {
    var ps :| Ascending(ps) && Enumerates(ps, data.Keys) && ChosenFrom(a, data, ps);
    var qs :| Ascending(qs) && Enumerates(qs, data.Keys) && ChosenFrom(b, data, qs);
    EnumerationUnique(ps, qs, data.Keys);
    SameLookups(a, b);
  }

  lemma SameLookups<V>(a: map<string, V>, b: map<string, V>)
    requires forall k :: Lookup(a, k) == Lookup(b, k)
    ensures a == b
  {
    forall k ensures k in a <==> k in b { assert Lookup(a, k) == Lookup(b, k); }
    forall k | k in a ensures a[k] == b[k] { assert Lookup(a, k) == Lookup(b, k); }
  }

  // ---- What the fold selects ----

  /** `c` is offered by provider number `i`. */
  predicate OfferedAt(data: Catalogue, ps: seq<string>, i: nat, m: string, c: Candidate)
    requires i < |ps|
  {
    Offer(data, ps[i], m) == Some(c)
  }

  /** After `n` ascending providers the choice was offered, is non-zero if any offer was, costs
      less than 1e-9 more than every non-zero offer, and if all were free it is the first. */
  lemma {:induction false} ChosenSpec(data: Catalogue, ps: seq<string>, n: nat, m: string, i: nat, c: Candidate)
    requires n <= |ps| && Ascending(ps) && i < n && OfferedAt(data, ps, i, m, c)
    ensures Chosen(data, ps, n, m).Some?
    ensures Beats(Chosen(data, ps, n, m).value, c)
  {
    ChosenIsOffered(data, ps, n - 1, m);
    BelowTotal(ps[i], ps[n - 1]);
    if i < n - 1 {
      ChosenSpec(data, ps, n - 1, m, i, c);
      if Offer(data, ps[n - 1], m).Some? { LaterNameNeverWins(data, ps, n, m); }
    } else if Chosen(data, ps, n - 1, m).Some? {
      LaterNameNeverWins(data, ps, n, m);
    }
  }

  lemma {:induction false} ChosenIsOffered(data: Catalogue, ps: seq<string>, n: nat, m: string)
    requires n <= |ps|
    ensures var best := Chosen(data, ps, n, m);
            best.Some? ==> best.value.input >= 0.0 && exists j :: 0 <= j < n && OfferedAt(data, ps, j, m, best.value)
  {
    if n > 0 {
      ChosenIsOffered(data, ps, n - 1, m);
      assert Chosen(data, ps, n, m) == Offer(data, ps[n - 1], m) ==> Offer(data, ps[n - 1], m).Some? ==> OfferedAt(data, ps, n - 1, m, Chosen(data, ps, n, m).value);
    }
  }

  /** Because the providers ascend, the tie-breaker on names never lets a later one in. */
  lemma LaterNameNeverWins(data: Catalogue, ps: seq<string>, n: nat, m: string)
    requires 0 < n <= |ps| && Ascending(ps)
    requires Chosen(data, ps, n - 1, m).Some? && Offer(data, ps[n - 1], m).Some?
    ensures Below(Chosen(data, ps, n - 1, m).value.provider, ps[n - 1])
    ensures !Below(ps[n - 1], Chosen(data, ps, n - 1, m).value.provider)
  {
    ChosenIsOffered(data, ps, n - 1, m);
    var best := Chosen(data, ps, n - 1, m).value;
    var j :| 0 <= j < n - 1 && OfferedAt(data, ps, j, m, best);
    assert Below(ps[j], ps[n - 1]);
    if Below(ps[n - 1], ps[j]) {
      BelowTransitive(ps[j], ps[n - 1], ps[j]);
      BelowIrreflexive(ps[j]);
    }
  }

  /** The selection in terms of the catalogue alone. */
  lemma SelectionSpec(selected: map<string, Candidate>, data: Catalogue, m: string)
    requires Selects(selected, data)
    ensures m in selected <==> exists p :: p in data && Offer(data, p, m).Some?
    ensures m in selected ==> selected[m].provider in data && Offer(data, selected[m].provider, m) == Some(selected[m])
    ensures forall p | p in data && Offer(data, p, m).Some? :: m in selected && Beats(selected[m], Offer(data, p, m).value)
  {
    var ps :| Ascending(ps) && Enumerates(ps, data.Keys) && ChosenFrom(selected, data, ps);
    ChosenIsOffered(data, ps, |ps|, m);
    assert Lookup(selected, m) == Chosen(data, ps, |ps|, m);
    forall p | p in data && Offer(data, p, m).Some? ensures m in selected && Beats(selected[m], Offer(data, p, m).value) {
      var i :| 0 <= i < |ps| && ps[i] == p;
      ChosenSpec(data, ps, |ps|, m, i, Offer(data, p, m).value);
    }
  }

  /** `best` is non-zero if `c` is and then less than 1e-9 dearer; if `best` is free, so is `c`,
      and `best` comes first. */
  predicate Beats(best: Candidate, c: Candidate) {
    && (c.input > 0.0 ==> 0.0 < best.input < c.input + EPSILON)
    && (best.input == 0.0 ==> c.input == 0.0 && (best.provider == c.provider || Below(best.provider, c.provider)))
  }

  /** No two distinct non-zero offers for the model are nearly equal. */
  ghost predicate Apart(data: Catalogue, m: string) {
    forall p, q | p in data && q in data && Offer(data, p, m).Some? && Offer(data, q, m).Some? ::
      var a, b := Offer(data, p, m).value.input, Offer(data, q, m).value.input;
      a > 0.0 && b > 0.0 && NearlyEqual(a, b) ==> a == b
  }

  predicate NoDearer(best: Candidate, c: Candidate) {
    && 0.0 < best.input <= c.input
    && (best.input == c.input ==> best.provider == c.provider || Below(best.provider, c.provider))
  }

  /** One step of the fold between candidates that are equal in price or 1e-9 apart. */
  lemma ConsiderApart(best: Candidate, next: Candidate)
    requires best.input >= 0.0 && next.input >= 0.0
    requires best.input > 0.0 && next.input > 0.0 && NearlyEqual(best.input, next.input) ==> best.input == next.input
    requires Below(best.provider, next.provider) && !Below(next.provider, best.provider)
    ensures var after := Consider(Some(best), Some(next)).value;
            && (next.input > 0.0 ==> NoDearer(after, next))
            && (best.input > 0.0 ==> 0.0 < after.input && (after == best || after.input < best.input))
  {}

  lemma StillNoDearer(best: Candidate, after: Candidate, c: Candidate)
    requires NoDearer(best, c) && 0.0 < after.input && (after == best || after.input < best.input)
    ensures NoDearer(after, c)
  {}

  /** Then the choice is the cheapest non-zero offer, and the first of those. */
  lemma {:induction false} ChosenIsCheapest(data: Catalogue, ps: seq<string>, n: nat, m: string, i: nat, c: Candidate)
    requires n <= |ps| && Ascending(ps) && Enumerates(ps, data.Keys) && Apart(data, m)
    requires i < n && OfferedAt(data, ps, i, m, c) && c.input > 0.0
    ensures Chosen(data, ps, n, m).Some? && NoDearer(Chosen(data, ps, n, m).value, c)
  {
    var best, next := Chosen(data, ps, n - 1, m), Offer(data, ps[n - 1], m);
    assert Chosen(data, ps, n, m) == Consider(best, next);
    if i == n - 1 {
      assert next == Some(c);
      if best.Some? { StepApart(data, ps, n, m); }
    } else {
      ChosenIsCheapest(data, ps, n - 1, m, i, c);
      if next.Some? {
        StepApart(data, ps, n, m);
        StillNoDearer(best.value, Consider(best, next).value, c);
      }
    }
  }

  lemma StepApart(data: Catalogue, ps: seq<string>, n: nat, m: string)
    requires 0 < n <= |ps| && Ascending(ps) && Enumerates(ps, data.Keys) && Apart(data, m)
    requires Chosen(data, ps, n - 1, m).Some? && Offer(data, ps[n - 1], m).Some?
    ensures var best, next := Chosen(data, ps, n - 1, m).value, Offer(data, ps[n - 1], m).value;
            var after := Consider(Some(best), Some(next)).value;
            && (next.input > 0.0 ==> NoDearer(after, next))
            && (best.input > 0.0 ==> 0.0 < after.input && (after == best || after.input < best.input))
  {
    ChosenIsOffered(data, ps, n - 1, m);
    LaterNameNeverWins(data, ps, n, m);
    var best, next := Chosen(data, ps, n - 1, m).value, Offer(data, ps[n - 1], m).value;
    var j :| 0 <= j < n - 1 && OfferedAt(data, ps, j, m, best);
    assert ps[j] in data && ps[n - 1] in data;
    ConsiderApart(best, next);
  }

  lemma CheapestWhenApart(selected: map<string, Candidate>, data: Catalogue, m: string, p: string)
    requires Selects(selected, data) && Apart(data, m)
    requires p in data && Offer(data, p, m).Some? && Offer(data, p, m).value.input > 0.0
    ensures m in selected && 0.0 < selected[m].input <= Offer(data, p, m).value.input
    ensures selected[m].input == Offer(data, p, m).value.input ==> selected[m].provider == p || Below(selected[m].provider, p)
  {
    var ps :| Ascending(ps) && Enumerates(ps, data.Keys) && ChosenFrom(selected, data, ps);
    var i :| 0 <= i < |ps| && ps[i] == p;
    ChosenIsCheapest(data, ps, |ps|, m, i, Offer(data, p, m).value);
    assert Lookup(selected, m) == Chosen(data, ps, |ps|, m);
  }

  /** Sorting is needed: with prices closer than 1e-9 the fold is not independent of the order. */
  lemma FoldNeedsSorting(data: Catalogue, m: string, x: real)
    requires x > 0.0
    requires data == map["a" := map[m := Cost(Some(x + EPSILON * 1.2), None, None)],
                         "b" := map[m := Cost(Some(x + EPSILON * 0.6), None, None)],
                         "c" := map[m := Cost(Some(x), None, None)]]
    ensures Chosen(data, ["a", "b", "c"], 3, m).value.provider == "c"
    ensures Chosen(data, ["c", "b", "a"], 3, m).value.provider == "a"
  {
    assert Below("a", "b") && Below("b", "c");
    var a, b, c := Offer(data, "a", m), Offer(data, "b", m), Offer(data, "c", m);
    assert Chosen(data, ["a", "b", "c"], 1, m) == a;
    assert Chosen(data, ["a", "b", "c"], 2, m) == a;
    assert Chosen(data, ["c", "b", "a"], 1, m) == c;
    assert Chosen(data, ["c", "b", "a"], 2, m) == b;
  }

  // ---- Told from the catalogue ----

  /** A provider's prices count if there is an input price that is not negative, the output price
      is missing or not negative, and not a positive one beside a free input. */
  predicate Priced(cost: Cost) {
    && cost.input.Some? && cost.input.value >= 0.0
    && (cost.output.Some? ==> cost.output.value >= 0.0 && (cost.output.value > 0.0 ==> cost.input.value > 0.0))
  }

  /** A model is selected if some provider prices it, with that provider's prices; a negative cache
      price is dropped. */
  lemma SelectedPrices(selected: map<string, Candidate>, data: Catalogue, m: string)
    requires Selects(selected, data)
    ensures m in selected <==> exists p :: p in data && m in data[p] && Priced(data[p][m])
    ensures m in selected ==>
              var c := selected[m];
              && c.provider in data && m in data[c.provider] && Priced(data[c.provider][m])
              && c.input == data[c.provider][m].input.value && c.output == data[c.provider][m].output
              && (c.cacheRead.Some? <==> data[c.provider][m].cacheRead.Some? && data[c.provider][m].cacheRead.value >= 0.0)
              && (c.cacheRead.Some? ==> c.cacheRead == data[c.provider][m].cacheRead)
  {
    SelectionSpec(selected, data, m);
    forall p ensures Offer(data, p, m).Some? <==> p in data && m in data[p] && Priced(data[p][m]) {
      OfferedIfPriced(data, p, m);
    }
    if m in selected { OfferedIfPriced(data, selected[m].provider, m); }
  }

  lemma OfferedIfPriced(data: Catalogue, p: string, m: string)
    ensures Offer(data, p, m).Some? <==> p in data && m in data[p] && Priced(data[p][m])
  {}

  /** Prices that count are met: the selected price is non-zero if one of them is, and then less
      than 1e-9 above it. */
  lemma SelectedIsCheap(selected: map<string, Candidate>, data: Catalogue, m: string, p: string)
    requires Selects(selected, data) && p in data && m in data[p] && Priced(data[p][m])
    ensures m in selected
    ensures data[p][m].input.value > 0.0 ==> 0.0 < selected[m].input < data[p][m].input.value + 0.000000001
    ensures selected[m].input == 0.0 ==> data[p][m].input.value == 0.0 && (selected[m].provider == p || Below(selected[m].provider, p))
  {
    SelectionSpec(selected, data, m);
    OfferedIfPriced(data, p, m);
    assert Offer(data, p, m).value.provider == p;
  }
}
