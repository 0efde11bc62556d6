/**
What detection, selection and check do to a channel, name by name, told from the channel, the
selection, the upstream list and the mapping alone. A name is listed when one of the entries, trimmed,
is that name.
*/
module UpstreamRules {
  import opened Text
  import opened ModelNames
  import opened Upstream
  import opened UpstreamSync

  ghost predicate Lists(xs: seq<string>, x: string) {
    x != "" && exists y :: y in xs && TrimSpace(y) == x
  }

  lemma ListsSpec(xs: seq<string>, x: string)
    ensures Lists(xs, x) <==> x in Normalize(xs)
  {
    NormalizeSpec(xs);
    if x in Normalize(xs) { assert Name(x); }
  }

  // ---- Detection ----

  /** The pattern is the name itself, or `regex:` and an expression that matches it. */
  ghost predicate Covers(p: string, x: string, env: Env) {
    if |p| >= 6 && p[..6] == "regex:" then env.match'(TrimSpace(p[6..]), x) else p == x
  }

  ghost predicate Wanted(local: seq<string>, ignored: seq<string>, env: Env, x: string) {
    && Lists(env.upstream, x) && !Lists(local, x) && (forall k | k in env.mapping :: env.mapping[k] != x)
    && (forall p | Lists(ignored, p) :: !Covers(p, x, env))
  }

  ghost predicate Stale(local: seq<string>, env: Env, x: string) {
    Lists(local, x) && !Lists(env.upstream, x) && x !in env.mapping
  }

  lemma IgnoredSpec(ignored: seq<string>, env: Env, x: string)
    ensures Ignored(Normalize(ignored), x, env) <==> exists p :: Lists(ignored, p) && Covers(p, x, env)
  {
    if Ignored(Normalize(ignored), x, env) {
      var p :| p in Normalize(ignored) && Ignores(p, x, env);
      ListsSpec(ignored, p);
      assert Covers(p, x, env);
    }
    if p :| Lists(ignored, p) && Covers(p, x, env) {
      ListsSpec(ignored, p);
      assert p in Normalize(ignored) && Ignores(p, x, env);
    }
  }

  /** A name is pending for addition when upstream has it and neither the models, nor a redirect's
      target, nor the ignore list cover it; for removal when only the models have it. */
  lemma DetectionFinds(local: seq<string>, ignored: seq<string>, env: Env, x: string)
    ensures x in PendingAdd(Normalize(local), Normalize(ignored), env) <==> Wanted(local, ignored, env, x)
    ensures x in PendingRemove(Normalize(local), env) <==> Stale(local, env, x)
  {
    NormalizeSpec(local);
    ListsSpec(local, x);
    ListsSpec(env.upstream, x);
    PendingSpec(Normalize(local), Normalize(ignored), env);
    IgnoredSpec(ignored, env, x);
    assert x in env.mapping.Values <==> exists k :: k in env.mapping && env.mapping[k] == x;
  }

  // ---- Selection ----

  ghost predicate Adds(ch: Channel, sel: Selection, x: string) {
    Lists(sel.add, x) && Lists(ch.settings.detected, x)
  }

  ghost predicate Drops(ch: Channel, sel: Selection, x: string) {
    Lists(sel.remove, x) && Lists(ch.settings.removed, x) && !Adds(ch, sel, x)
  }

  lemma SelectedNames(ch: Channel, sel: Selection, x: string)
    ensures x in Added(ch, sel) <==> Adds(ch, sel, x)
    ensures x in Removed(ch, sel) <==> Drops(ch, sel, x)
    ensures x in NewlyIgnored(ch, sel) <==> Lists(sel.ignore, x) && Lists(ch.settings.detected, x)
    ensures Normal(Added(ch, sel)) && Normal(Removed(ch, sel)) && Normal(NewlyIgnored(ch, sel))
  {
    var detected, removed := Normalize(ch.settings.detected), Normalize(ch.settings.removed);
    NormalizeSpec(ch.settings.detected);
    NormalizeSpec(ch.settings.removed);
    NormalizeSpec(detected);
    NormalizeSpec(removed);
    IntersectSpec(sel.add, detected);
    IntersectSpec(sel.ignore, detected);
    IntersectSpec(sel.remove, removed);
    NormalizeSpec(Intersect(sel.remove, removed));
    NormalizeSpec(Added(ch, sel));
    SubtractSpec(Intersect(sel.remove, removed), Added(ch, sel));
    ListsSpec(sel.add, x);
    ListsSpec(sel.ignore, x);
    ListsSpec(sel.remove, x);
    ListsSpec(ch.settings.detected, x);
    ListsSpec(ch.settings.removed, x);
  }

  /** Ignoring a detected name puts it on the ignore list, adding a detected name takes it off. */
  lemma IgnoreListAfter(ch: Channel, sel: Selection, now: int, x: string)
    ensures Lists(Applied(ch, sel, now).settings.ignored, x) <==>
            && (Lists(ch.settings.ignored, x) || (Lists(sel.ignore, x) && Lists(ch.settings.detected, x)))
            && !(Lists(sel.add, x) && Lists(ch.settings.detected, x))
  {
    var added, ignore := Added(ch, sel), NewlyIgnored(ch, sel);
    var merged := Merge(ch.settings.ignored, ignore);
    SelectedNames(ch, sel, x);
    ListsSpec(ch.settings.ignored, x);
    ListsSpec(NextIgnored(ch, sel), x);
    MergeSpec(ch.settings.ignored, ignore);
    NormalizeSpec(ignore);
    NormalizeSpec(added);
    NormalizeSpec(merged);
    SubtractSpec(merged, added);
    NormalizeSpec(NextIgnored(ch, sel));
  }

  /** A detected name stays pending unless it was selected for adding or ignoring. */
  lemma DetectedAfter(ch: Channel, sel: Selection, now: int, x: string)
    ensures x in Applied(ch, sel, now).settings.detected <==>
            Lists(ch.settings.detected, x) && !Lists(sel.add, x) && !Lists(sel.ignore, x)
  {
    var detected, taken := Normalize(ch.settings.detected), Added(ch, sel) + NewlyIgnored(ch, sel);
    SelectedNames(ch, sel, x);
    ListsSpec(ch.settings.detected, x);
    NormalizeSpec(ch.settings.detected);
    NormalizeSpec(detected);
    TrimAllNames(taken);
    UniqSpec(taken);
    SubtractSpec(detected, taken);
  }

  /** A stored removal stays pending unless it was selected and not added. */
  lemma RemovalsAfter(ch: Channel, sel: Selection, now: int, x: string)
    ensures x in Applied(ch, sel, now).settings.removed <==> Lists(ch.settings.removed, x) && !Drops(ch, sel, x)
  {
    var removed := Normalize(ch.settings.removed);
    SelectedNames(ch, sel, x);
    ListsSpec(ch.settings.removed, x);
    NormalizeSpec(ch.settings.removed);
    NormalizeSpec(removed);
    NormalizeSpec(Removed(ch, sel));
    SubtractSpec(removed, Removed(ch, sel));
  }

  /** `x` is a part between commas of one of the names. */
  ghost predicate HasPart(xs: seq<string>, x: string) {
    exists a :: a in xs && Lists(Split(a, ','), x)
  }

  /** A list of names in the models column reads back as the parts of its names between commas. */
  lemma ColumnLists(xs: seq<string>, x: string)
    ensures Lists(GetModels(Join(xs, ',')), x) <==> HasPart(xs, x)
  {
    ListsSpec(GetModels(Join(xs, ',')), x);
    ColumnShows(xs);
    UniqSpec(TrimAll(Flat(xs)));
    TrimAllSpec(Flat(xs));
    if x in TrimAll(Flat(xs)) {
      var q :| q in Flat(xs) && x == TrimSpace(q);
      FlatMembers(xs, q);
      var a :| a in xs && q in Split(a, ',');
      assert Name(x) && Lists(Split(a, ','), x);
    }
    if a :| a in xs && Lists(Split(a, ','), x) {
      var q :| q in Split(a, ',') && TrimSpace(q) == x;
      FlatMembers(xs, q);
    }
  }

  /** The models of a channel are their own parts. */
  lemma LocalParts(ch: Channel, x: string)
    ensures Lists(GetModels(ch.models), x) <==> HasPart(Local(ch), x)
  {
    CommaFree(ch.models);
    NormalizeSpec(GetModels(ch.models));
    ModelsRoundTrip(Local(ch));
    ColumnLists(Local(ch), x);
    ListsSpec(GetModels(ch.models), x);
    ListsSpec(GetModels(Join(Local(ch), ',')), x);
  }

  /** A name is a model afterwards exactly when it is one of the parts between commas of a name that
      was added, or was a model before and was not dropped. */
  lemma ModelsAfter(ch: Channel, sel: Selection, now: int, x: string)
    ensures Lists(GetModels(Applied(ch, sel, now).models), x) <==>
            exists a :: (Adds(ch, sel, a) || (Lists(GetModels(ch.models), a) && !Drops(ch, sel, a))) && Lists(Split(a, ','), x)
  {
    var next := NextModels(ch, sel);
    ColumnLists(next, x);
    LocalParts(ch, x);
    forall a ensures a in next <==> Adds(ch, sel, a) || (Lists(GetModels(ch.models), a) && !Drops(ch, sel, a)) {
      NextAreModels(ch, sel, a);
      ListsSpec(GetModels(ch.models), a);
    }
  }

  /** When no added name has a comma, exactly when it was added, or was one before and was not dropped. */
  lemma PlainModelsAfter(ch: Channel, sel: Selection, now: int, x: string)
    requires forall a | Adds(ch, sel, a) :: ',' !in a
    ensures Lists(GetModels(Applied(ch, sel, now).models), x) <==>
            Adds(ch, sel, x) || (Lists(GetModels(ch.models), x) && !Drops(ch, sel, x))
  {
    var next := NextModels(ch, sel);
    NextAreModels(ch, sel, x);
    ListsSpec(GetModels(ch.models), x);
    ListsSpec(GetModels(Applied(ch, sel, now).models), x);
    NextHaveNoComma(ch, sel);
    ModelsRoundTrip(next);
  }

  lemma NextAreModels(ch: Channel, sel: Selection, x: string)
    ensures Normal(NextModels(ch, sel))
    ensures x in NextModels(ch, sel) <==> Adds(ch, sel, x) || (x in Local(ch) && !Drops(ch, sel, x))
  {
    SelectedNames(ch, sel, x);
    NormalizeSpec(GetModels(ch.models));
    NormalizeSpec(Local(ch));
    NormalizeSpec(Added(ch, sel));
    NormalizeSpec(Removed(ch, sel));
    ApplySelectedSpec(Local(ch), Added(ch, sel), Removed(ch, sel));
  }

  lemma NextHaveNoComma(ch: Channel, sel: Selection)
    requires forall a | Adds(ch, sel, a) :: ',' !in a
    ensures Free(NextModels(ch, sel), ',') && Normal(NextModels(ch, sel))
  {
    CommaFree(ch.models);
    NextAreModels(ch, sel, "");
    forall a | a in NextModels(ch, sel) ensures ',' !in a { NextAreModels(ch, sel, a); }
  }

  /** The rest of the settings. */
  lemma OtherSettingsAfter(ch: Channel, sel: Selection, now: int)
    ensures var after := Applied(ch, sel, now).settings; after.lastCheck == now && after.autoSync == ch.settings.autoSync
  {}

  // ---- Check ----

  /** A check that is not forced is skipped within the interval after the last one; a forced check,
      the first check and a late one run. */
  lemma SkippedOrRun(ch: Channel, mode: Mode, env: Env, now: int)
    ensures !mode.force && ch.settings.lastCheck > 0 && now - ch.settings.lastCheck < mode.minInterval ==>
              forall answered :: CheckResult(ch, mode, env, answered, now) == (ch, 0)
    ensures mode.force || ch.settings.lastCheck <= 0 || now - ch.settings.lastCheck >= mode.minInterval ==>
              Checked(ch, mode, env, true, now).settings.lastCheck == now && Checked(ch, mode, env, false, now).settings.lastCheck == now
  {}

  /** A check without an answer records its time only. */
  lemma UnansweredCheck(ch: Channel, mode: Mode, env: Env, now: int)
    requires mode.force || ch.settings.lastCheck <= 0 || now - ch.settings.lastCheck >= mode.minInterval
    ensures CheckResult(ch, mode, env, false, now) == (ch.(settings := ch.settings.(lastCheck := now)), 0)
  {}

  /** An answered check stores what it finds as pending, unless it may apply additions, the channel
      asks for it and there are some: then they become models at once and are counted. */
  lemma AnsweredCheck(ch: Channel, mode: Mode, env: Env, now: int, x: string)
    requires mode.force || ch.settings.lastCheck <= 0 || now - ch.settings.lastCheck >= mode.minInterval
    ensures var (after, added) := CheckResult(ch, mode, env, true, now);
            && after.settings.ignored == ch.settings.ignored && after.settings.autoSync == ch.settings.autoSync
            && (x in after.settings.removed <==> Stale(GetModels(ch.models), env, x))
            && (if mode.allowAutoApply && ch.settings.autoSync && (exists w :: Wanted(GetModels(ch.models), ch.settings.ignored, env, w))
                then after.settings.detected == [] && added > 0
                else added == 0 && after.models == ch.models
                     && (x in after.settings.detected <==> Wanted(GetModels(ch.models), ch.settings.ignored, env, x)))
  {
    var adds := PendingAdd(Local(ch), Normalize(ch.settings.ignored), env);
    DetectionFinds(GetModels(ch.models), ch.settings.ignored, env, x);
    SomeWanted(ch, env);
    if adds != [] { MergeCount(ch, env); }
  }

  lemma SomeWanted(ch: Channel, env: Env)
    ensures PendingAdd(Local(ch), Normalize(ch.settings.ignored), env) != [] <==>
            exists w :: Wanted(GetModels(ch.models), ch.settings.ignored, env, w)
  {
    var adds := PendingAdd(Local(ch), Normalize(ch.settings.ignored), env);
    if adds != [] {
      DetectionFinds(GetModels(ch.models), ch.settings.ignored, env, adds[0]);
      assert adds[0] in adds;
    }
    if w :| Wanted(GetModels(ch.models), ch.settings.ignored, env, w) {
      DetectionFinds(GetModels(ch.models), ch.settings.ignored, env, w);
    }
  }

  lemma MergeCount(ch: Channel, env: Env)
    ensures var adds := PendingAdd(Local(ch), Normalize(ch.settings.ignored), env);
            |Merge(Local(ch), adds)| - |Local(ch)| == |adds|
  {
    AutoMergeShape(ch, PendingAdd(Local(ch), Normalize(ch.settings.ignored), env), env);
  }

  lemma HasPartAppend(xs: seq<string>, ys: seq<string>, x: string)
    ensures HasPart(xs + ys, x) <==> HasPart(xs, x) || HasPart(ys, x)
  {
    assert forall a :: a in xs + ys <==> a in xs || a in ys;
  }

  lemma WantedParts(ch: Channel, env: Env, x: string)
    ensures HasPart(PendingAdd(Local(ch), Normalize(ch.settings.ignored), env), x) <==>
            exists w :: Wanted(GetModels(ch.models), ch.settings.ignored, env, w) && Lists(Split(w, ','), x)
  {
    forall w ensures w in PendingAdd(Local(ch), Normalize(ch.settings.ignored), env) <==> Wanted(GetModels(ch.models), ch.settings.ignored, env, w) {
      DetectionFinds(GetModels(ch.models), ch.settings.ignored, env, w);
    }
  }

  lemma MergedModels(ch: Channel, mode: Mode, env: Env, now: int, adds: seq<string>)
    requires mode.force || ch.settings.lastCheck <= 0 || now - ch.settings.lastCheck >= mode.minInterval
    requires mode.allowAutoApply && ch.settings.autoSync && adds == PendingAdd(Local(ch), Normalize(ch.settings.ignored), env)
    ensures Checked(ch, mode, env, true, now).models == if adds == [] then ch.models else Join(Local(ch) + adds, ',')
  {
    AutoMergeShape(ch, adds, env);
  }

  /** The models added by a check are exactly the parts between commas of the wanted names. */
  lemma AutoAppliedModels(ch: Channel, mode: Mode, env: Env, now: int, x: string)
    requires mode.force || ch.settings.lastCheck <= 0 || now - ch.settings.lastCheck >= mode.minInterval
    requires mode.allowAutoApply && ch.settings.autoSync
    ensures Lists(GetModels(Checked(ch, mode, env, true, now).models), x) <==>
            || Lists(GetModels(ch.models), x)
            || exists w :: Wanted(GetModels(ch.models), ch.settings.ignored, env, w) && Lists(Split(w, ','), x)
  {
    var adds := PendingAdd(Local(ch), Normalize(ch.settings.ignored), env);
    MergedModels(ch, mode, env, now, adds);
    WantedParts(ch, env, x);
    LocalParts(ch, x);
    HasPartAppend(Local(ch), adds, x);
    ColumnLists(Local(ch) + adds, x);
  }
}
