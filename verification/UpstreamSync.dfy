/**
Whether a channel's stored pending lists stay what a fresh detection against the same upstream would
find, through selections and checks. Model names may contain commas, although the models are stored
as one comma-separated text, and may start with `regex:`, although the ignore list then takes them
as patterns.
*/
module UpstreamSync {
  import opened Text
  import opened ModelNames
  import opened Upstream

  ghost predicate Plain(xs: seq<string>) {
    forall x | x in xs :: !(REGEX <= x)
  }

  /** The names in play when a selection meets a synced channel. */
  lemma SelectionFacts(ch: Channel, sel: Selection, env: Env)
    requires Synced(ch, env)
    ensures Normal(Local(ch)) && Normal(ch.settings.detected) && Normal(ch.settings.removed)
    ensures Normal(Added(ch, sel)) && Normal(NewlyIgnored(ch, sel)) && Normal(Removed(ch, sel))
    ensures forall x | x in Added(ch, sel) || x in NewlyIgnored(ch, sel) :: x in ch.settings.detected
    ensures forall x | x in Removed(ch, sel) :: x in ch.settings.removed
  {
    NormalizeSpec(GetModels(ch.models));
    PendingSpec(Local(ch), Normalize(ch.settings.ignored), env);
    NormalizeSpec(ch.settings.detected);
    NormalizeSpec(ch.settings.removed);
    IntersectSpec(sel.add, ch.settings.detected);
    IntersectSpec(sel.ignore, ch.settings.detected);
    IntersectSpec(sel.remove, ch.settings.removed);
    var r := Intersect(sel.remove, ch.settings.removed);
    NormalizeSpec(r);
    SubtractSpec(r, Added(ch, sel));
  }

  lemma NextModelsShape(ch: Channel, sel: Selection, env: Env)
    requires Synced(ch, env)
    ensures NextModels(ch, sel) == Without(Local(ch), Elems(Removed(ch, sel))) + Added(ch, sel)
    ensures Normal(NextModels(ch, sel))
  {
    SelectionFacts(ch, sel, env);
    PendingSpec(Local(ch), Normalize(ch.settings.ignored), env);
    ApplySelectedNormal(Local(ch), Added(ch, sel), Removed(ch, sel));
    ApplySelectedSpec(Local(ch), Added(ch, sel), Removed(ch, sel));
  }

  lemma NormalizeAppendElems(a: seq<string>, g: seq<string>)
    requires Normal(a) && Normal(g)
    ensures Elems(Normalize(a + g)) == Elems(a) + Elems(g)
  {
    TrimAllNames(a + g);
    UniqSpec(a + g);
  }

  lemma RemainingShape(ch: Channel, sel: Selection, env: Env)
    requires Synced(ch, env)
    ensures Subtract(Normalize(ch.settings.detected), Added(ch, sel) + NewlyIgnored(ch, sel))
         == Without(ch.settings.detected, Elems(Added(ch, sel)) + Elems(NewlyIgnored(ch, sel)))
    ensures Subtract(Normalize(ch.settings.removed), Removed(ch, sel)) == Without(ch.settings.removed, Elems(Removed(ch, sel)))
  {
    SelectionFacts(ch, sel, env);
    assert Normalize(ch.settings.detected) == ch.settings.detected by { NormalizeSpec(ch.settings.detected); }
    assert Normalize(ch.settings.removed) == ch.settings.removed by { NormalizeSpec(ch.settings.removed); }
    assert Normalize(Removed(ch, sel)) == Removed(ch, sel) by { NormalizeSpec(Removed(ch, sel)); }
    NormalizeAppendElems(Added(ch, sel), NewlyIgnored(ch, sel));
  }

  lemma NextIgnoredShape(ch: Channel, sel: Selection)
    ensures Normal(NextIgnored(ch, sel))
    ensures forall p :: p in Normalize(NextIgnored(ch, sel))
              <==> (p in Normalize(ch.settings.ignored) || p in NewlyIgnored(ch, sel)) && p !in Added(ch, sel)
  {
    var a, g := Added(ch, sel), NewlyIgnored(ch, sel);
    var merged := Merge(ch.settings.ignored, g);
    IntersectSpec(sel.add, Normalize(ch.settings.detected));
    IntersectSpec(sel.ignore, Normalize(ch.settings.detected));
    NormalizeSpec(g);
    NormalizeSpec(a);
    MergeSpec(ch.settings.ignored, g);
    NormalizeSpec(merged);
    SubtractSpec(merged, a);
    NormalizeSpec(NextIgnored(ch, sel));
  }

  // ---- What a selection stores, told from the channel and the selection ----

  /** A pattern that stays on the ignore list, or is put there, ignores the name. */
  ghost predicate WillIgnore(ch: Channel, sel: Selection, env: Env, u: string) {
    exists p :: (p in Normalize(ch.settings.ignored) || p in NewlyIgnored(ch, sel)) && p !in Added(ch, sel) && Ignores(p, u, env)
  }

  lemma WillIgnoreSpec(ch: Channel, sel: Selection, env: Env, u: string)
    ensures WillIgnore(ch, sel, env, u) <==> Ignored(Normalize(NextIgnored(ch, sel)), u, env)
  {
    NextIgnoredShape(ch, sel);
    if WillIgnore(ch, sel, env, u) {
      var p :| (p in Normalize(ch.settings.ignored) || p in NewlyIgnored(ch, sel)) && p !in Added(ch, sel) && Ignores(p, u, env);
      assert p in Normalize(NextIgnored(ch, sel));
    }
  }

  /** The names that the models column shows for the parts of an added name with commas. */
  function Pieces(names: seq<string>): set<string> {
    set a, q | a in names && ',' in a && q in Split(a, ',') && TrimSpace(q) != "" :: TrimSpace(q)
  }

  function Flat(xs: seq<string>): seq<string> {
    if xs == [] then [] else Split(xs[0], ',') + Flat(xs[1..])
  }

  lemma {:induction false} SplitOfJoin(xs: seq<string>)
    requires xs != []
    ensures Split(Join(xs, ','), ',') == Flat(xs)
  {
    if |xs| == 1 {
      assert Flat(xs[1..]) == [];
    } else {
      SplitOfJoin(xs[1..]);
      SplitConcat(xs[0], Join(xs[1..], ','), ',');
    }
  }

  lemma {:induction false} TrimAllAppend(xs: seq<string>, ys: seq<string>)
    ensures TrimAll(xs + ys) == TrimAll(xs) + TrimAll(ys)
  {
    if ys == [] {
      assert xs + ys == xs;
    } else {
      var front, t := ys[..|ys| - 1], TrimSpace(ys[|ys| - 1]);
      TrimAllAppend(xs, front);
      assert (xs + ys)[..|xs + ys| - 1] == xs + front;
      Reassociate(TrimAll(xs), TrimAll(front), if t != "" then [t] else []);
    }
  }

  lemma BlankDropped()
    ensures TrimAll([""]) == []
  {
    assert [""][..0] == [] && TrimAll([]) == [];
  }

  lemma {:induction false} TrimLeftKeepsNames(s: string)
    ensures TrimAll(Split(TrimLeft(s, Is(',')), ',')) == TrimAll(Split(s, ','))
  {
    if s != [] && s[0] == ',' {
      TrimLeftKeepsNames(s[1..]);
      BlankDropped();
      TrimAllAppend([""], Split(s[1..], ','));
    }
  }

  lemma TrailingComma(front: string)
    ensures TrimAll(Split(front + [','], ',')) == TrimAll(Split(front, ','))
  {
    SplitConcat(front, [], ',');
    assert front + [','] + [] == front + [','];
    assert Split([], ',') == [""];
    TrimAllAppend(Split(front, ','), [""]);
    BlankDropped();
  }

  lemma {:induction false} TrimRightKeepsNames(s: string)
    ensures TrimAll(Split(TrimRight(s, Is(',')), ',')) == TrimAll(Split(s, ','))
  {
    if s != [] && s[|s| - 1] == ',' {
      var front := s[..|s| - 1];
      assert s == front + [','] && TrimRight(s, Is(',')) == TrimRight(front, Is(','));
      TrimRightKeepsNames(front);
      TrailingComma(front);
    }
  }

  /** What a list of names is read back as: each name falls into its parts. */
  lemma ColumnShows(xs: seq<string>)
    ensures Normalize(GetModels(Join(xs, ','))) == Uniq(TrimAll(Flat(xs)))
  {
    if xs != [] {
      var s := Join(xs, ',');
      SplitOfJoin(xs);
      TrimLeftKeepsNames(s);
      TrimRightKeepsNames(TrimLeft(s, Is(',')));
      BlankDropped();
      assert s == "" ==> Split(s, ',') == [""];
    }
  }

  lemma {:induction false} FlatAppend(xs: seq<string>, ys: seq<string>)
    ensures Flat(xs + ys) == Flat(xs) + Flat(ys)
  {
    if xs == [] {
      assert xs + ys == ys;
    } else {
      FlatAppend(xs[1..], ys);
      assert (xs + ys)[1..] == xs[1..] + ys;
      Reassociate(Split(xs[0], ','), Flat(xs[1..]), Flat(ys));
    }
  }

  lemma {:induction false} FlatFree(xs: seq<string>)
    requires Free(xs, ',')
    ensures Flat(xs) == xs
  {
    if xs != [] {
      FlatFree(xs[1..]);
      SplitHead(xs[0], [], ',');
      assert xs == [xs[0]] + xs[1..];
    }
  }

  lemma {:induction false} FlatMembers(xs: seq<string>, q: string)
    ensures q in Flat(xs) <==> exists a :: a in xs && q in Split(a, ',')
  {
    if xs != [] {
      FlatMembers(xs[1..], q);
      assert forall a :: a in xs <==> a == xs[0] || a in xs[1..];
      if q in Split(xs[0], ',') { assert xs[0] in xs; }
    }
  }

  /** The names read back from names: the ones without a comma, and the pieces of the others. */
  lemma ShownMembers(xs: seq<string>, x: string)
    requires forall a | a in xs :: Name(a)
    ensures x in TrimAll(Flat(xs)) <==> (x in xs && ',' !in x) || x in Pieces(xs)
  {
    TrimAllSpec(Flat(xs));
    if x in TrimAll(Flat(xs)) {
      var q :| q in Flat(xs) && x == TrimSpace(q);
      FlatMembers(xs, q);
      var a :| a in xs && q in Split(a, ',');
      assert Name(x);
      if ',' !in a { PlainPart(a, q); }
    }
    if x in xs && ',' !in x {
      PlainPart(x, x);
      FlatMembers(xs, x);
      assert TrimSpace(x) == x;
    }
    if x in Pieces(xs) {
      var a, q :| a in xs && ',' in a && q in Split(a, ',') && TrimSpace(q) != "" && TrimSpace(q) == x;
      FlatMembers(xs, q);
    }
  }

  lemma PlainPart(a: string, q: string)
    requires Name(a) && ',' !in a
    ensures Split(a, ',') == [a] && TrimSpace(a) == a && (q in Split(a, ',') ==> q == a)
  {
    SplitHead(a, [], ',');
  }

  lemma {:induction false} UniqAppend(k: seq<string>, r: seq<string>)
    requires Distinct(k)
    ensures Uniq(k + r) == k + Without(Uniq(r), Elems(k))
  {
    if r == [] {
      UniqSpec(k);
      assert k + r == k;
    } else {
      var front, last := r[..|r| - 1], r[|r| - 1];
      UniqAppend(k, front);
      assert (k + r)[..|k + r| - 1] == k + front;
      assert last in k + front <==> last in k || last in front;
      if last !in front { assert (Uniq(front) + [last])[..|Uniq(front)|] == Uniq(front); }
    }
  }

  function KeptModels(ch: Channel, sel: Selection): seq<string> {
    Without(Local(ch), Elems(Removed(ch, sel)))
  }

  /** The models read back after a selection: the kept ones, then what the added ones show. */
  lemma StoredShape(ch: Channel, sel: Selection, now: int, env: Env)
    requires Synced(ch, env)
    ensures Local(Applied(ch, sel, now))
         == KeptModels(ch, sel) + Without(Uniq(TrimAll(Flat(Added(ch, sel)))), Elems(KeptModels(ch, sel)))
  {
    var kept, added := KeptModels(ch, sel), Added(ch, sel);
    NextModelsShape(ch, sel, env);
    SelectionFacts(ch, sel, env);
    WithoutSpec(Local(ch), Elems(Removed(ch, sel)));
    CommaFree(ch.models);
    FlatAppend(kept, added);
    FlatFree(kept);
    TrimAllNames(kept);
    TrimAllAppend(kept, Flat(added));
    UniqAppend(kept, TrimAll(Flat(added)));
    ColumnShows(kept + added);
    if Local(ch) == NextModels(ch, sel) { UnchangedAddsNothing(ch, sel, env); }
  }

  lemma UnchangedAddsNothing(ch: Channel, sel: Selection, env: Env)
    requires Synced(ch, env) && Local(ch) == NextModels(ch, sel)
    ensures Added(ch, sel) == [] && KeptModels(ch, sel) == Local(ch)
  {
    var kept, added := KeptModels(ch, sel), Added(ch, sel);
    NextModelsShape(ch, sel, env);
    SelectionFacts(ch, sel, env);
    PendingSpec(Local(ch), Normalize(ch.settings.ignored), env);
    assert forall a | a in added :: a !in Local(ch);
    SomeOf(kept, added);
    assert kept + [] == kept;
  }

  lemma SomeOf(kept: seq<string>, added: seq<string>)
    ensures added == [] || exists a :: a in added && a in kept + added
  {
    if added != [] {
      assert (kept + added)[|kept|] == added[0];
      assert added[0] in added && added[0] in kept + added;
    }
  }

  // ---- The stored additions ----

  /** What is stored as still pending, name by name. */
  lemma StoredPending(ch: Channel, sel: Selection, now: int, env: Env, u: string)
    requires Synced(ch, env)
    ensures u in Applied(ch, sel, now).settings.detected <==>
            u in ch.settings.detected && u !in Added(ch, sel) && u !in NewlyIgnored(ch, sel)
  {
    RemainingShape(ch, sel, env);
    WithoutSpec(ch.settings.detected, Elems(Added(ch, sel)) + Elems(NewlyIgnored(ch, sel)));
  }

  /** What the models column shows of a name that upstream has. */
  lemma StoredModel(ch: Channel, sel: Selection, now: int, env: Env, u: string)
    requires Synced(ch, env) && u in Normalize(env.upstream)
    ensures u in Local(Applied(ch, sel, now)) <==>
            u in Local(ch) || (u in Added(ch, sel) && ',' !in u) || u in Pieces(Added(ch, sel))
  {
    var kept, shown := KeptModels(ch, sel), TrimAll(Flat(Added(ch, sel)));
    SelectionFacts(ch, sel, env);
    StoredShape(ch, sel, now, env);
    ShownMembers(Added(ch, sel), u);
    UniqSpec(shown);
    WithoutSpec(Uniq(shown), Elems(kept));
    assert u in kept <==> u in Local(ch) by {
      WithoutSpec(Local(ch), Elems(Removed(ch, sel)));
      WithoutSpec(Local(ch), env.mapping.Keys + Elems(Normalize(env.upstream)));
    }
  }

  /** The name is covered after the selection: by a model, a piece of one, the mapping or a pattern. */
  ghost predicate WillCover(ch: Channel, sel: Selection, env: Env, u: string) {
    || u in Local(ch) || (u in Added(ch, sel) && ',' !in u) || u in Pieces(Added(ch, sel))
    || u in env.mapping.Values || WillIgnore(ch, sel, env, u)
  }

  lemma FreshPending(ch: Channel, sel: Selection, now: int, env: Env, u: string)
    requires Synced(ch, env) && u in Normalize(env.upstream)
    ensures var ch' := Applied(ch, sel, now);
            u in PendingAdd(Local(ch'), Normalize(ch'.settings.ignored), env) <==> !WillCover(ch, sel, env, u)
  {
    var ch' := Applied(ch, sel, now);
    PendingAddSpec(Local(ch'), Normalize(ch'.settings.ignored), env, u);
    StoredModel(ch, sel, now, env, u);
    WillIgnoreSpec(ch, sel, env, u);
  }

  lemma {:induction false} WithoutEqualIff(xs: seq<string>, s: set<string>, t: set<string>)
    ensures Without(xs, s) == Without(xs, t) <==> forall x | x in xs :: x in s <==> x in t
  {
    if forall x | x in xs :: x in s <==> x in t {
      WithoutSame(xs, s, t);
    } else {
      WithoutSpec(xs, s);
      WithoutSpec(xs, t);
    }
  }

  /** The stored additions are those of a fresh detection exactly when they agree name by name. */
  lemma AddsAgreeIff(ch: Channel, sel: Selection, now: int, env: Env)
    requires Synced(ch, env)
    ensures var ch' := Applied(ch, sel, now);
            ch'.settings.detected == PendingAdd(Local(ch'), Normalize(ch'.settings.ignored), env) <==>
            forall u | u in Normalize(env.upstream) ::
              (u in ch.settings.detected && u !in Added(ch, sel) && u !in NewlyIgnored(ch, sel)) <==> !WillCover(ch, sel, env, u)
  {
    var ch', up := Applied(ch, sel, now), Normalize(env.upstream);
    var stored, detected := ch'.settings.detected, PendingAdd(Local(ch'), Normalize(ch'.settings.ignored), env);
    FiltersOfUpstream(ch, sel, now, env);
    forall u | u in up
      ensures u in stored <==> u in ch.settings.detected && u !in Added(ch, sel) && u !in NewlyIgnored(ch, sel)
      ensures u in detected <==> !WillCover(ch, sel, env, u)
    {
      StoredPending(ch, sel, now, env, u);
      FreshPending(ch, sel, now, env, u);
    }
  }

  /** Both lists are the upstream list with some names left out, so their members decide. */
  lemma FiltersOfUpstream(ch: Channel, sel: Selection, now: int, env: Env)
    requires Synced(ch, env)
    ensures var ch' := Applied(ch, sel, now);
            var stored, detected := ch'.settings.detected, PendingAdd(Local(ch'), Normalize(ch'.settings.ignored), env);
            stored == detected <==> forall u | u in Normalize(env.upstream) :: u in stored <==> u in detected
  {
    var ch', up, taken := Applied(ch, sel, now), Normalize(env.upstream), Elems(Added(ch, sel)) + Elems(NewlyIgnored(ch, sel));
    var before := Elems(Local(ch)) + env.mapping.Values + IgnoredSet(up, Normalize(ch.settings.ignored), env);
    var after := Elems(Local(ch')) + env.mapping.Values + IgnoredSet(up, Normalize(ch'.settings.ignored), env);
    RemainingShape(ch, sel, env);
    WithoutTwice(up, before, taken);
    WithoutEqualIff(up, before + taken, after);
    WithoutSpec(up, before + taken);
    WithoutSpec(up, after);
  }

  // ---- The ways a selection can leave the lists stale ----

  /** An added name with a comma is not read back, and is still wanted. */
  ghost predicate CommaStaysWanted(ch: Channel, sel: Selection, env: Env) {
    exists a :: a in Added(ch, sel) && ',' in a && !WillIgnore(ch, sel, env, a)
  }

  /** A name still pending is caught by a new pattern, or is a piece of an added name. */
  ghost predicate CatchesPending(ch: Channel, sel: Selection, env: Env) {
    exists u :: u in ch.settings.detected && u !in Added(ch, sel) && u !in NewlyIgnored(ch, sel)
                && (WillIgnore(ch, sel, env, u) || u in Pieces(Added(ch, sel)))
  }

  /** A newly ignored name is a pattern, and none of the patterns matches it. */
  ghost predicate IgnoresInVain(ch: Channel, sel: Selection, env: Env) {
    exists u :: u in NewlyIgnored(ch, sel) && u !in Added(ch, sel)
                && !WillIgnore(ch, sel, env, u) && u !in Pieces(Added(ch, sel))
  }

  /** Adding a pattern's name takes it off the ignore list, and a name only it covered comes back. */
  ghost predicate Unignores(ch: Channel, sel: Selection, env: Env) {
    exists u :: u in Normalize(env.upstream) && u !in Local(ch) && u !in env.mapping.Values
                && Ignored(Normalize(ch.settings.ignored), u, env)
                && !WillIgnore(ch, sel, env, u) && u !in Pieces(Added(ch, sel))
  }

  /** A piece of an added name is a model that neither was kept nor is known upstream or mapped. */
  ghost predicate LeavesStray(ch: Channel, sel: Selection, env: Env) {
    exists q :: q in Pieces(Added(ch, sel)) && !(q in Local(ch) && q !in Removed(ch, sel))
                && q !in env.mapping.Keys && q !in Normalize(env.upstream)
  }

  ghost predicate Agrees(ch: Channel, sel: Selection, env: Env, u: string) {
    (u in ch.settings.detected && u !in Added(ch, sel) && u !in NewlyIgnored(ch, sel)) <==> !WillCover(ch, sel, env, u)
  }

  lemma PiecesHaveNoComma(names: seq<string>, q: string)
    requires q in Pieces(names)
    ensures ',' !in q
  {
    var a, p :| a in names && ',' in a && p in Split(a, ',') && TrimSpace(p) != "" && TrimSpace(p) == q;
    SplitIsFree(a, ',');
    TrimSpaceSpec(p);
  }

  /** One name of the upstream list, case by case. */
  lemma AgreesIff(ch: Channel, sel: Selection, env: Env, u: string)
    requires Synced(ch, env) && u in Normalize(env.upstream)
    ensures u in Added(ch, sel) ==>
              (Agrees(ch, sel, env, u) <==> !(',' in u && !WillIgnore(ch, sel, env, u)))
    ensures u in ch.settings.detected && u !in Added(ch, sel) ==>
              (Agrees(ch, sel, env, u) <==> (u in NewlyIgnored(ch, sel) <==> WillIgnore(ch, sel, env, u) || u in Pieces(Added(ch, sel))))
    ensures u !in ch.settings.detected ==>
              (Agrees(ch, sel, env, u) <==>
               u in Local(ch) || u in env.mapping.Values || WillIgnore(ch, sel, env, u) || u in Pieces(Added(ch, sel)))
    ensures u !in ch.settings.detected <==>
              u in Local(ch) || u in env.mapping.Values || Ignored(Normalize(ch.settings.ignored), u, env)
  {
    SelectionFacts(ch, sel, env);
    PendingAddSpec(Local(ch), Normalize(ch.settings.ignored), env, u);
    if u in Pieces(Added(ch, sel)) { PiecesHaveNoComma(Added(ch, sel), u); }
  }

  ghost predicate AddsStale(ch: Channel, sel: Selection, env: Env) {
    CommaStaysWanted(ch, sel, env) || CatchesPending(ch, sel, env) || IgnoresInVain(ch, sel, env) || Unignores(ch, sel, env)
  }

  lemma StaleName(ch: Channel, sel: Selection, env: Env, u: string)
    requires Synced(ch, env) && u in Normalize(env.upstream) && !Agrees(ch, sel, env, u)
    ensures AddsStale(ch, sel, env)
  {
    AgreesIff(ch, sel, env, u);
  }

  lemma StaleAdds(ch: Channel, sel: Selection, env: Env) returns (u: string)
    requires Synced(ch, env) && AddsStale(ch, sel, env)
    ensures u in Normalize(env.upstream) && !Agrees(ch, sel, env, u)
  {
    SelectionFacts(ch, sel, env);
    PendingSpec(Local(ch), Normalize(ch.settings.ignored), env);
    if CommaStaysWanted(ch, sel, env) {
      u :| u in Added(ch, sel) && ',' in u && !WillIgnore(ch, sel, env, u);
    } else if CatchesPending(ch, sel, env) {
      u :| u in ch.settings.detected && u !in Added(ch, sel) && u !in NewlyIgnored(ch, sel)
           && (WillIgnore(ch, sel, env, u) || u in Pieces(Added(ch, sel)));
    } else if IgnoresInVain(ch, sel, env) {
      u :| u in NewlyIgnored(ch, sel) && u !in Added(ch, sel) && !WillIgnore(ch, sel, env, u) && u !in Pieces(Added(ch, sel));
    } else {
      u :| u in Normalize(env.upstream) && u !in Local(ch) && u !in env.mapping.Values
           && Ignored(Normalize(ch.settings.ignored), u, env) && !WillIgnore(ch, sel, env, u) && u !in Pieces(Added(ch, sel));
    }
    AgreesIff(ch, sel, env, u);
  }

  // ---- The stored removals ----

  lemma {:induction false} WithoutNothingIff(xs: seq<string>, s: set<string>)
    ensures Without(xs, s) == [] <==> forall x | x in xs :: x in s
  {
    if forall x | x in xs :: x in s {
      WithoutAll(xs, s);
    } else {
      WithoutSpec(xs, s);
    }
  }

  /** The stored removals are those of a fresh detection exactly when no piece is a stray model. */
  lemma RemovesAgreeIff(ch: Channel, sel: Selection, now: int, env: Env)
    requires Synced(ch, env)
    ensures var ch' := Applied(ch, sel, now);
            ch'.settings.removed == PendingRemove(Local(ch'), env) <==> !LeavesStray(ch, sel, env)
  {
    var ch', kept, keep := Applied(ch, sel, now), KeptModels(ch, sel), env.mapping.Keys + Elems(Normalize(env.upstream));
    var shown := Brought(ch, sel);
    StoredShape(ch, sel, now, env);
    WithoutAppend(kept, shown, keep);
    StoredRemovals(ch, sel, now, env);
    WithoutNothingIff(shown, keep);
    StrayIff(ch, sel, env);
    assert Without(kept, keep) + Without(shown, keep) == Without(kept, keep) <==> Without(shown, keep) == [];
  }

  lemma StoredRemovals(ch: Channel, sel: Selection, now: int, env: Env)
    requires Synced(ch, env)
    ensures Applied(ch, sel, now).settings.removed
         == Without(KeptModels(ch, sel), env.mapping.Keys + Elems(Normalize(env.upstream)))
  {
    var r, keep := Elems(Removed(ch, sel)), env.mapping.Keys + Elems(Normalize(env.upstream));
    RemainingShape(ch, sel, env);
    WithoutTwice(Local(ch), r, keep);
    WithoutTwice(Local(ch), keep, r);
    assert r + keep == keep + r;
  }

  /** The models that the added names bring, beside the kept ones. */
  function Brought(ch: Channel, sel: Selection): seq<string> {
    Without(Uniq(TrimAll(Flat(Added(ch, sel)))), Elems(KeptModels(ch, sel)))
  }

  lemma BroughtSpec(ch: Channel, sel: Selection, env: Env, x: string)
    requires Synced(ch, env)
    ensures x in Brought(ch, sel) <==>
            && ((x in Added(ch, sel) && ',' !in x) || x in Pieces(Added(ch, sel)))
            && !(x in Local(ch) && x !in Removed(ch, sel))
  {
    var shown := TrimAll(Flat(Added(ch, sel)));
    SelectionFacts(ch, sel, env);
    ShownMembers(Added(ch, sel), x);
    UniqSpec(shown);
    WithoutSpec(Uniq(shown), Elems(KeptModels(ch, sel)));
    WithoutSpec(Local(ch), Elems(Removed(ch, sel)));
  }

  lemma StrayIff(ch: Channel, sel: Selection, env: Env)
    requires Synced(ch, env)
    ensures LeavesStray(ch, sel, env) <==>
            !(forall x | x in Brought(ch, sel) :: x in env.mapping.Keys + Elems(Normalize(env.upstream)))
  {
    if LeavesStray(ch, sel, env) {
      var q :| q in Pieces(Added(ch, sel)) && !(q in Local(ch) && q !in Removed(ch, sel))
               && q !in env.mapping.Keys && q !in Normalize(env.upstream);
      BroughtSpec(ch, sel, env, q);
    } else {
      forall x | x in Brought(ch, sel) ensures x in env.mapping.Keys + Elems(Normalize(env.upstream)) {
        BroughtSpec(ch, sel, env, x);
        SelectionFacts(ch, sel, env);
        PendingAddSpec(Local(ch), Normalize(ch.settings.ignored), env, x);
      }
    }
  }

  // ---- Applying a selection ----

  /** After any selection the stored pending lists equal, as lists, what a fresh detection would
      return, exactly when none of the five ways of going stale occurs. */
  lemma ApplySyncIff(ch: Channel, sel: Selection, now: int, env: Env)
    requires Synced(ch, env)
    ensures Synced(Applied(ch, sel, now), env) <==>
            && !CommaStaysWanted(ch, sel, env) && !CatchesPending(ch, sel, env) && !IgnoresInVain(ch, sel, env)
            && !Unignores(ch, sel, env) && !LeavesStray(ch, sel, env)
  {
    AddsAgreeIff(ch, sel, now, env);
    RemovesAgreeIff(ch, sel, now, env);
    if AddsStale(ch, sel, env) {
      var u := StaleAdds(ch, sel, env);
      assert !Agrees(ch, sel, env, u);
    } else {
      forall u | u in Normalize(env.upstream) ensures Agrees(ch, sel, env, u) {
        if !Agrees(ch, sel, env, u) { StaleName(ch, sel, env, u); }
      }
    }
  }

  /** A comma alone does not decide where names are patterns: when a newly ignored pattern matches
      all that upstream has, nothing is wanted any more, added names with commas included. */
  lemma PatternCoversComma(ch: Channel, sel: Selection, now: int, env: Env, p: string)
    requires Synced(ch, env) && !LeavesStray(ch, sel, env)
    requires p in NewlyIgnored(ch, sel) && p !in Added(ch, sel) && forall u | u in Normalize(env.upstream) :: Ignores(p, u, env)
    requires forall u | u in ch.settings.detected :: u in Added(ch, sel) || u in NewlyIgnored(ch, sel)
    ensures Synced(Applied(ch, sel, now), env)
  {
    RemovesAgreeIff(ch, sel, now, env);
    AddsAgreeIff(ch, sel, now, env);
    forall u | u in Normalize(env.upstream) ensures Agrees(ch, sel, env, u) {
      AgreesIff(ch, sel, env, u);
      assert WillIgnore(ch, sel, env, u);
    }
  }

  lemma NoPieces(names: seq<string>)
    requires Free(names, ',')
    ensures Pieces(names) == {}
  {}

  /** With plain names the new ignore list ignores the old and the newly ignored names. */
  lemma PlainWillIgnore(ch: Channel, sel: Selection, env: Env, u: string)
    requires Plain(Added(ch, sel)) && Plain(NewlyIgnored(ch, sel))
    ensures u !in Added(ch, sel) ==>
              (WillIgnore(ch, sel, env, u) <==> Ignored(Normalize(ch.settings.ignored), u, env) || u in NewlyIgnored(ch, sel))
    ensures u in Added(ch, sel) && !Ignored(Normalize(ch.settings.ignored), u, env) ==> !WillIgnore(ch, sel, env, u)
  {
    if u !in Added(ch, sel) && Ignored(Normalize(ch.settings.ignored), u, env) {
      var p :| p in Normalize(ch.settings.ignored) && Ignores(p, u, env);
      assert p !in Added(ch, sel);
    }
    if u in NewlyIgnored(ch, sel) { assert Ignores(u, u, env); }
  }

  lemma PlainFreeSyncs(ch: Channel, sel: Selection, now: int, env: Env)
    requires Synced(ch, env) && Plain(Added(ch, sel)) && Plain(NewlyIgnored(ch, sel)) && Free(Added(ch, sel), ',')
    ensures Synced(Applied(ch, sel, now), env)
  {
    NoPieces(Added(ch, sel));
    RemovesAgreeIff(ch, sel, now, env);
    AddsAgreeIff(ch, sel, now, env);
    forall u | u in Normalize(env.upstream) ensures Agrees(ch, sel, env, u) {
      AgreesIff(ch, sel, env, u);
      PlainWillIgnore(ch, sel, env, u);
    }
  }

  lemma PlainCommaBreaksSync(ch: Channel, sel: Selection, now: int, env: Env)
    requires Synced(ch, env) && Plain(Added(ch, sel)) && Plain(NewlyIgnored(ch, sel)) && !Free(Added(ch, sel), ',')
    ensures !Synced(Applied(ch, sel, now), env)
  {
    var a :| a in Added(ch, sel) && ',' in a;
    SelectionFacts(ch, sel, env);
    PendingAddSpec(Local(ch), Normalize(ch.settings.ignored), env, a);
    PlainWillIgnore(ch, sel, env, a);
    assert CommaStaysWanted(ch, sel, env);
    ApplySyncIff(ch, sel, now, env);
  }

  /** For plain names, as model names normally are, only the comma matters. */
  lemma PlainApplyKeepsSync(ch: Channel, sel: Selection, now: int, env: Env)
    requires Synced(ch, env) && Plain(Added(ch, sel)) && Plain(NewlyIgnored(ch, sel))
    ensures Synced(Applied(ch, sel, now), env) <==> Free(Added(ch, sel), ',')
  {
    if Free(Added(ch, sel), ',') {
      PlainFreeSyncs(ch, sel, now, env);
    } else {
      PlainCommaBreaksSync(ch, sel, now, env);
    }
  }

  // ---- Checks ----

  lemma AutoMergeShape(ch: Channel, adds: seq<string>, env: Env)
    requires adds == PendingAdd(Local(ch), Normalize(ch.settings.ignored), env)
    ensures Normal(Local(ch)) && Normal(adds) && Merge(Local(ch), adds) == Local(ch) + adds && Normal(Local(ch) + adds)
  {
    NormalizeSpec(GetModels(ch.models));
    PendingSpec(Local(ch), Normalize(ch.settings.ignored), env);
    NormalizeSpec(Local(ch));
    NormalizeSpec(adds);
    WithoutSpec(adds, Elems(Local(ch)));
    MergeSpec(Local(ch), adds);
  }

  /** A check that runs leaves the channel synced, except exactly when it auto-applied a name
      with a comma in it. */
  lemma CheckSyncs(ch: Channel, mode: Mode, env: Env, now: int)
    requires !Skips(ch, mode, now)
    ensures var adds := PendingAdd(Local(ch), Normalize(ch.settings.ignored), env);
            Synced(Checked(ch, mode, env, true, now), env) <==> (AutoApplies(ch, mode, adds) ==> Free(adds, ','))
  {
    var local, ign := Local(ch), Normalize(ch.settings.ignored);
    var adds, ch' := PendingAdd(local, ign, env), Checked(ch, mode, env, true, now);
    if AutoApplies(ch, mode, adds) {
      AutoMergeShape(ch, adds, env);
      CommaFree(ch.models);
      CommaFree(ch'.models);
      NormalizeSpec(GetModels(ch'.models));
      PendingSpec(local, ign, env);
      PendingSpec(Local(ch'), ign, env);
      if Free(adds, ',') {
        assert Free(local + adds, ',');
        ModelsRoundTrip(local + adds);
        AutoAppliedSync(local, adds, ign, env);
      } else {
        var a :| a in adds && ',' in a;
        assert a in PendingAdd(Local(ch'), ign, env);
      }
    }
  }

  lemma AutoAppliedSync(local: seq<string>, adds: seq<string>, ign: seq<string>, env: Env)
    requires Normal(local) && Normal(local + adds) && adds == PendingAdd(local, ign, env)
    ensures PendingAdd(local + adds, ign, env) == [] && PendingRemove(local + adds, env) == PendingRemove(local, env)
  {
    PendingSpec(local, ign, env);
    PendingSpec(local + adds, ign, env);
    WithoutAll(Normalize(env.upstream), Elems(local + adds) + env.mapping.Values + IgnoredSet(Normalize(env.upstream), ign, env));
    var keep := env.mapping.Keys + Elems(Normalize(env.upstream));
    WithoutAppend(local, adds, keep);
    WithoutAll(adds, keep);
  }

  /** A second check against the same upstream changes nothing but the time of the check. */
  lemma SecondCheckChangesNothing(ch: Channel, mode: Mode, env: Env, now: int, later: int)
    requires !Skips(ch, mode, now)
    requires var adds := PendingAdd(Local(ch), Normalize(ch.settings.ignored), env); AutoApplies(ch, mode, adds) ==> Free(adds, ',')
    ensures var once := Checked(ch, mode, env, true, now);
            var twice := Checked(once, mode, env, true, later);
            twice == once.(settings := once.settings.(lastCheck := twice.settings.lastCheck))
  {
    CheckSyncs(ch, mode, env, now);
  }

  /** Applying everything that is pending leaves nothing pending for the next detection. */
  lemma ApplyAllThenDetect(ch: Channel, now: int, env: Env)
    requires Synced(ch, env) && Plain(ch.settings.detected) && Free(ch.settings.detected, ',')
    ensures var ch' := Applied(ch, Selection(Normalize(ch.settings.detected), [], Normalize(ch.settings.removed)), now);
            && PendingAdd(Local(ch'), Normalize(ch'.settings.ignored), env) == []
            && PendingRemove(Local(ch'), env) == []
  {
    var sel := Selection(Normalize(ch.settings.detected), [], Normalize(ch.settings.removed));
    SelectionFacts(ch, sel, env);
    PlainApplyKeepsSync(ch, sel, now, env);
    PendingSpec(Local(ch), Normalize(ch.settings.ignored), env);
    RemainingShape(ch, sel, env);
    var d, r := ch.settings.detected, ch.settings.removed;
    NormalizeSpec(d);
    NormalizeSpec(r);
    IntersectSpec(d, d);
    IntersectSpec(r, r);
    NormalizeSpec(Intersect(r, r));
    NormalizeSpec(Added(ch, sel));
    SubtractSpec(Intersect(r, r), Added(ch, sel));
    WithoutAll(d, Elems(Added(ch, sel)) + Elems(NewlyIgnored(ch, sel)));
    WithoutAll(r, Elems(Removed(ch, sel)));
  }

  // ---- Whole runs ----

  datatype Event = Apply(sel: Selection, now: int) | Check(mode: Mode, answered: bool, now: int)

  function Step(ch: Channel, e: Event, env: Env): Channel {
    match e
    case Apply(sel, now) => Applied(ch, sel, now)
    case Check(mode, answered, now) => Checked(ch, mode, env, answered, now)
  }

  function Run(ch: Channel, es: seq<Event>, env: Env): Channel {
    if es == [] then ch else Step(Run(ch, es[..|es| - 1], env), es[|es| - 1], env)
  }

  /** Once synced, a channel stays synced through any number of selections and checks, as long
      as the upstream's names carry no comma and no `regex:` prefix. */
  lemma {:induction false} RunStaysSynced(ch: Channel, es: seq<Event>, env: Env)
    requires Synced(ch, env) && Plain(Normalize(env.upstream)) && Free(Normalize(env.upstream), ',')
    ensures Synced(Run(ch, es, env), env)
  {
    if es != [] {
      var ch', e := Run(ch, es[..|es| - 1], env), es[|es| - 1];
      RunStaysSynced(ch, es[..|es| - 1], env);
      NormalizeSpec(GetModels(ch'.models));
      PendingSpec(Local(ch'), Normalize(ch'.settings.ignored), env);
      match e
      case Apply(sel, now) =>
        SelectionFacts(ch', sel, env);
        PlainApplyKeepsSync(ch', sel, now, env);
      case Check(mode, answered, now) =>
        if answered && !Skips(ch', mode, now) { CheckSyncs(ch', mode, env, now); }
    }
  }
}
