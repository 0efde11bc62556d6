/**
The order-preserving list algebra on model names (controller/channel_upstream_update.go):
normalise, merge, subtract, intersect and apply a selection.
*/
module ModelNames {
  import opened Text

  function Elems(xs: seq<string>): set<string> {
    set x | x in xs
  }

  /** Keep first occurrences. */
  function Uniq(xs: seq<string>): seq<string> {
    if xs == [] then []
    else
      var front, last := xs[..|xs| - 1], xs[|xs| - 1];
      if last in front then Uniq(front) else Uniq(front) + [last]
  }

  /** Trim every name and drop the blank ones. */
  function TrimAll(xs: seq<string>): seq<string> {
    if xs == [] then []
    else
      var t := TrimSpace(xs[|xs| - 1]);
      TrimAll(xs[..|xs| - 1]) + if t != "" then [t] else []
  }

  function Normalize(xs: seq<string>): seq<string> {
    Uniq(TrimAll(xs))
  }

  function Without(xs: seq<string>, s: set<string>): seq<string> {
    if xs == [] then []
    else Without(xs[..|xs| - 1], s) + if xs[|xs| - 1] in s then [] else [xs[|xs| - 1]]
  }

  function Within(xs: seq<string>, s: set<string>): seq<string> {
    if xs == [] then []
    else Within(xs[..|xs| - 1], s) + if xs[|xs| - 1] in s then [xs[|xs| - 1]] else []
  }

  function Merge(base: seq<string>, appended: seq<string>): seq<string> {
    Normalize(base) + Without(Normalize(appended), Elems(Normalize(base)))
  }

  function Subtract(base: seq<string>, removed: seq<string>): seq<string> {
    Without(Normalize(base), Elems(Normalize(removed)))
  }

  function Intersect(base: seq<string>, allowed: seq<string>): seq<string> {
    Within(Normalize(base), Elems(Normalize(allowed)))
  }

  /** Adding wins when a name is selected both ways. */
  function ApplySelected(origin: seq<string>, add: seq<string>, remove: seq<string>): seq<string> {
    var normalizedAdd := Normalize(add);
    var normalizedRemove := Subtract(Normalize(remove), normalizedAdd);
    Subtract(Merge(origin, normalizedAdd), normalizedRemove)
  }

  // ---- Normal lists ----

  ghost predicate Distinct(xs: seq<string>) {
    forall i, j | 0 <= i < j < |xs| :: xs[i] != xs[j]
  }

  ghost predicate Name(x: string) {
    x != "" && TrimSpace(x) == x
  }

  /** Distinct, trimmed, not blank. */
  ghost predicate Normal(xs: seq<string>) {
    Distinct(xs) && forall x | x in xs :: Name(x)
  }

  lemma {:induction false} UniqSpec(xs: seq<string>)
    ensures Distinct(Uniq(xs)) && (forall x :: x in Uniq(xs) <==> x in xs)
    ensures Distinct(xs) ==> Uniq(xs) == xs
  {
    if xs != [] {
      UniqSpec(xs[..|xs| - 1]);
      assert xs == xs[..|xs| - 1] + [xs[|xs| - 1]];
    }
  }

  lemma {:induction false} TrimAllSpec(xs: seq<string>)
    ensures forall x | x in TrimAll(xs) :: Name(x)
    ensures forall y | y in xs && TrimSpace(y) != "" :: TrimSpace(y) in TrimAll(xs)
    ensures forall x | x in TrimAll(xs) :: exists y :: y in xs && x == TrimSpace(y)
  {
    if xs != [] {
      var front, last := xs[..|xs| - 1], xs[|xs| - 1];
      TrimAllSpec(front);
      TrimSpaceSpec(last);
      assert xs == front + [last];
    }
  }

  lemma {:induction false} TrimAllNames(xs: seq<string>)
    requires forall x | x in xs :: Name(x)
    ensures TrimAll(xs) == xs
  {
    if xs != [] {
      TrimAllNames(xs[..|xs| - 1]);
      assert Name(xs[|xs| - 1]);
      assert xs == xs[..|xs| - 1] + [xs[|xs| - 1]];
    }
  }

  /** Normalising yields a normal list of exactly the trimmed non-blank names, and leaves a
      normal list alone. */
  lemma NormalizeSpec(xs: seq<string>)
    ensures Normal(Normalize(xs))
    ensures forall y | y in xs && TrimSpace(y) != "" :: TrimSpace(y) in Normalize(xs)
    ensures forall x | x in Normalize(xs) :: exists y :: y in xs && x == TrimSpace(y)
    ensures Normal(xs) ==> Normalize(xs) == xs
  {
    TrimAllSpec(xs);
    UniqSpec(TrimAll(xs));
    if Normal(xs) {
      TrimAllNames(xs);
      UniqSpec(xs);
    }
  }

  // ---- Filtering ----

  lemma {:induction false} WithoutMembers(xs: seq<string>, s: set<string>)
    ensures forall x :: x in Without(xs, s) <==> x in xs && x !in s
    ensures (forall x | x in xs :: x !in s) ==> Without(xs, s) == xs
  {
    if xs != [] {
      WithoutMembers(xs[..|xs| - 1], s);
      assert xs == xs[..|xs| - 1] + [xs[|xs| - 1]];
    }
  }

  lemma {:induction false} WithoutDistinct(xs: seq<string>, s: set<string>)
    requires Distinct(xs)
    ensures Distinct(Without(xs, s))
  {
    if xs != [] {
      WithoutDistinct(xs[..|xs| - 1], s);
      WithoutMembers(xs[..|xs| - 1], s);
    }
  }

  lemma WithoutSpec(xs: seq<string>, s: set<string>)
    ensures forall x :: x in Without(xs, s) <==> x in xs && x !in s
    ensures Normal(xs) ==> Normal(Without(xs, s))
    ensures (forall x | x in xs :: x !in s) ==> Without(xs, s) == xs
  {
    WithoutMembers(xs, s);
    if Distinct(xs) { WithoutDistinct(xs, s); }
  }

  lemma {:induction false} WithinIsWithout(xs: seq<string>, s: set<string>, all: set<string>)
    requires forall x | x in xs :: x in all
    ensures Within(xs, s) == Without(xs, all - s)
  {
    if xs != [] { WithinIsWithout(xs[..|xs| - 1], s, all); }
  }

  lemma WithinSpec(xs: seq<string>, s: set<string>)
    ensures forall x :: x in Within(xs, s) <==> x in xs && x in s
    ensures Normal(xs) ==> Normal(Within(xs, s))
    ensures (forall x | x in xs :: x in s) ==> Within(xs, s) == xs
  {
    WithinIsWithout(xs, s, Elems(xs));
    WithoutSpec(xs, Elems(xs) - s);
  }

  lemma {:induction false} WithoutAll(xs: seq<string>, s: set<string>)
    requires forall x | x in xs :: x in s
    ensures Without(xs, s) == []
  {
    if xs != [] { WithoutAll(xs[..|xs| - 1], s); }
  }

  /** Filtering depends only on which of the listed names are removed. */
  lemma {:induction false} WithoutSame(xs: seq<string>, s: set<string>, t: set<string>)
    requires forall x | x in xs :: x in s <==> x in t
    ensures Without(xs, s) == Without(xs, t)
  {
    if xs != [] { WithoutSame(xs[..|xs| - 1], s, t); }
  }

  lemma {:induction false} WithoutTwice(xs: seq<string>, s: set<string>, t: set<string>)
    ensures Without(Without(xs, s), t) == Without(xs, s + t)
  {
    if xs != [] {
      var front, last := xs[..|xs| - 1], xs[|xs| - 1];
      WithoutTwice(front, s, t);
      if last in s {
        assert Without(xs, s) == Without(front, s);
      } else {
        var ys := Without(xs, s);
        assert ys[..|ys| - 1] == Without(front, s);
      }
    }
  }

  lemma {:induction false} WithoutAppend(xs: seq<string>, ys: seq<string>, s: set<string>)
    ensures Without(xs + ys, s) == Without(xs, s) + Without(ys, s)
  {
    if ys == [] {
      assert xs + ys == xs;
    } else {
      var front := ys[..|ys| - 1];
      WithoutAppend(xs, front, s);
      assert (xs + ys)[..|xs + ys| - 1] == xs + front;
    }
  }

  lemma NormalAppend(xs: seq<string>, ys: seq<string>)
    requires Normal(xs) && Normal(ys) && forall y | y in ys :: y !in xs
    ensures Normal(xs + ys)
  {
    var zs := xs + ys;
    forall i, j | 0 <= i < j < |zs| ensures zs[i] != zs[j] {
      if i < |xs| <= j { assert zs[i] in xs && zs[j] in ys; }
    }
  }

  lemma MergeSpec(base: seq<string>, appended: seq<string>)
    ensures Normal(Merge(base, appended))
    ensures forall x :: x in Merge(base, appended) <==> x in Normalize(base) || x in Normalize(appended)
    ensures Normalize(base) <= Merge(base, appended)
  {
    NormalizeSpec(base);
    NormalizeSpec(appended);
    WithoutSpec(Normalize(appended), Elems(Normalize(base)));
    NormalAppend(Normalize(base), Without(Normalize(appended), Elems(Normalize(base))));
  }

  lemma SubtractSpec(base: seq<string>, removed: seq<string>)
    ensures Normal(Subtract(base, removed))
    ensures forall x :: x in Subtract(base, removed) <==> x in Normalize(base) && x !in Normalize(removed)
  {
    NormalizeSpec(base);
    WithoutSpec(Normalize(base), Elems(Normalize(removed)));
  }

  lemma IntersectSpec(base: seq<string>, allowed: seq<string>)
    ensures Normal(Intersect(base, allowed))
    ensures forall x :: x in Intersect(base, allowed) <==> x in Normalize(base) && x in Normalize(allowed)
  {
    NormalizeSpec(base);
    WithinSpec(Normalize(base), Elems(Normalize(allowed)));
  }

  /** A name survives a selection exactly when it is added, or was there and is not removed. */
  lemma ApplySelectedSpec(origin: seq<string>, add: seq<string>, remove: seq<string>)
    ensures Normal(ApplySelected(origin, add, remove))
    ensures forall x :: x in ApplySelected(origin, add, remove)
                        <==> x in Normalize(add) || (x in Normalize(origin) && x !in Normalize(remove))
  {
    var a, r := Normalize(add), Normalize(remove);
    var kept := Subtract(r, a);
    NormalizeSpec(add);
    NormalizeSpec(remove);
    NormalizeSpec(a);
    NormalizeSpec(r);
    MergeSpec(origin, a);
    NormalizeSpec(Merge(origin, a));
    SubtractSpec(r, a);
    NormalizeSpec(kept);
    SubtractSpec(Merge(origin, a), kept);
  }

  /** On normal lists that do not overlap, a selection is one filter and one append. */
  lemma ApplySelectedNormal(origin: seq<string>, add: seq<string>, remove: seq<string>)
    requires Normal(origin) && Normal(add) && Normal(remove)
    requires forall x | x in add :: x !in origin && x !in remove
    ensures ApplySelected(origin, add, remove) == Without(origin, Elems(remove)) + add
  {
    NormalizeSpec(origin);
    NormalizeSpec(add);
    NormalizeSpec(remove);
    WithoutSpec(add, Elems(origin));
    WithoutSpec(remove, Elems(add));
    MergeSpec(origin, add);
    NormalizeSpec(origin + add);
    WithoutAppend(origin, add, Elems(remove));
    WithoutSpec(add, Elems(remove));
  }

  lemma PrefixGrows(xs: seq<string>, i: nat, s: set<string>)
    requires i < |xs|
    ensures Elems(xs[..i + 1]) == Elems(xs[..i]) + {xs[i]}
    ensures Without(xs[..i + 1], s) == Without(xs[..i], s) + if xs[i] in s then [] else [xs[i]]
  {
    assert xs[..i + 1][..i] == xs[..i];
    assert xs[..i + 1] == xs[..i] + [xs[i]];
  }

  /** The names of a list, as the source builds its sets. */
  method SetOf(xs: seq<string>) returns (s: set<string>)
    ensures s == Elems(xs)
  {
    s := {};
    for i := 0 to |xs|
      invariant s == Elems(xs[..i])
    {
      PrefixGrows(xs, i, {});
      s := s + {xs[i]};
    }
    assert xs[..|xs|] == xs;
  }

  /** The loop of the source: a `seen` set and an appended list. */
  method MergeModelNames(base: seq<string>, appended: seq<string>) returns (merged: seq<string>)
    ensures merged == Merge(base, appended)
  {
    merged := Normalize(base);
    var seen := SetOf(merged);
    ghost var start := seen;
    var extra := Normalize(appended);
    assert Distinct(extra) by { NormalizeSpec(appended); }
    for i := 0 to |extra|
      invariant seen == start + Elems(extra[..i])
      invariant merged == Normalize(base) + Without(extra[..i], start)
    {
      PrefixGrows(extra, i, start);
      assert extra[i] !in extra[..i];
      if extra[i] !in seen {
        seen := seen + {extra[i]};
        merged := merged + [extra[i]];
      }
    }
    assert extra[..|extra|] == extra;
  }
}
