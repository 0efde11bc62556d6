/**
Reconciling a channel's model list with its upstream (controller/channel_upstream_update.go):
detecting pending additions and removals, applying a selection of them, and the periodic check.
The upstream answer, the parsed model mapping and the regular-expression matcher are inputs.
*/
module Upstream {
  import opened Text
  import opened ModelNames

  /** The fields of ChannelOtherSettings that the reconciliation reads and writes. */
  datatype Settings = Settings(detected: seq<string>, removed: seq<string>, ignored: seq<string>, lastCheck: int, autoSync: bool)

  /** A stored channel row. `models` is the comma-separated column. */
  datatype Channel = Channel(models: string, settings: Settings)

  /** What the channel is compared with. `match(body, name)` is a successful regexp.MatchString. */
  datatype Env = Env(upstream: seq<string>, mapping: map<string, string>, match': (string, string) -> bool)

  const REGEX: string := "regex:"

  function GetModels(models: string): seq<string> {
    if models == "" then [] else Split(Trim(models, Is(',')), ',')
  }

  function Local(ch: Channel): seq<string> {
    Normalize(GetModels(ch.models))
  }

  // ---- Detection ----

  predicate Ignores(pattern: string, name: string, env: Env) {
    if REGEX <= pattern then env.match'(TrimSpace(pattern[|REGEX|..]), name) else pattern == name
  }

  predicate Ignored(ignored: seq<string>, name: string, env: Env) {
    exists p :: p in ignored && Ignores(p, name, env)
  }

  function IgnoredSet(names: seq<string>, ignored: seq<string>, env: Env): set<string> {
    set u | u in names && Ignored(ignored, u, env)
  }

  /** On normalised local models and ignore list. */
  function PendingAdd(local: seq<string>, ignored: seq<string>, env: Env): seq<string> {
    var up := Normalize(env.upstream);
    Without(up, Elems(local) + env.mapping.Values + IgnoredSet(up, ignored, env))
  }

  function PendingRemove(local: seq<string>, env: Env): seq<string> {
    Without(local, env.mapping.Keys + Elems(Normalize(env.upstream)))
  }

  /** The redirect sources and targets, collected entry by entry. */
  method RedirectSets(mapping: map<string, string>) returns (sources: set<string>, targets: set<string>)
    ensures sources == mapping.Keys && targets == mapping.Values
  {
    sources, targets := {}, {};
    var todo := mapping.Keys;
    while todo != {}
      invariant todo <= mapping.Keys
      invariant sources == mapping.Keys - todo
      invariant targets == set k | k in mapping && k !in todo :: mapping[k]
      decreases todo
    {
      var k :| k in todo;
      sources := sources + {k};
      targets := targets + {mapping[k]};
      todo := todo - {k};
    }
  }

  /** The detector: the sets are built by loops, the lists filtered by them. */
  method CollectPending(localModels: seq<string>, ignoredModels: seq<string>, env: Env)
    returns (pendingAdd: seq<string>, pendingRemove: seq<string>)
    ensures pendingAdd == PendingAdd(Normalize(localModels), Normalize(ignoredModels), env)
    ensures pendingRemove == PendingRemove(Normalize(localModels), env)
  {
    var local := Normalize(localModels);
    var upstream := Normalize(env.upstream);
    var localSet := SetOf(local);
    var upstreamSet := SetOf(upstream);
    var ignored := Normalize(ignoredModels);
    var sources, targets := RedirectSets(env.mapping);
    var covered := localSet + targets;
    pendingAdd := Without(upstream, covered + IgnoredSet(upstream, ignored, env));
    pendingRemove := Without(local, sources + upstreamSet);
    NormalizeSpec(localModels);
    PendingNormal(local, ignored, env);
    NormalizeSpec(pendingAdd);
    NormalizeSpec(pendingRemove);
    pendingAdd, pendingRemove := Normalize(pendingAdd), Normalize(pendingRemove);
  }

  lemma PendingNormal(local: seq<string>, ignored: seq<string>, env: Env)
    requires Normal(local)
    ensures Normal(PendingAdd(local, ignored, env)) && Normal(PendingRemove(local, env))
  {
    var up := Normalize(env.upstream);
    NormalizeSpec(env.upstream);
    WithoutSpec(up, Elems(local) + env.mapping.Values + IgnoredSet(up, ignored, env));
    WithoutSpec(local, env.mapping.Keys + Elems(up));
  }

  lemma PendingAddSpec(local: seq<string>, ignored: seq<string>, env: Env, u: string)
    ensures u in PendingAdd(local, ignored, env) <==>
              u in Normalize(env.upstream) && u !in local && u !in env.mapping.Values && !Ignored(ignored, u, env)
  {
    var up := Normalize(env.upstream);
    WithoutSpec(up, Elems(local) + env.mapping.Values + IgnoredSet(up, ignored, env));
  }

  /** What is pending, name by name. */
  lemma PendingSpec(local: seq<string>, ignored: seq<string>, env: Env)
    requires Normal(local)
    ensures Normal(PendingAdd(local, ignored, env)) && Normal(PendingRemove(local, env))
    ensures forall u :: u in PendingAdd(local, ignored, env)
              <==> u in Normalize(env.upstream) && u !in local && u !in env.mapping.Values && !Ignored(ignored, u, env)
    ensures forall m :: m in PendingRemove(local, env)
              <==> m in local && m !in env.mapping.Keys && m !in Normalize(env.upstream)
  {
    PendingNormal(local, ignored, env);
    forall u ensures u in PendingAdd(local, ignored, env)
               <==> u in Normalize(env.upstream) && u !in local && u !in env.mapping.Values && !Ignored(ignored, u, env)
    {
      PendingAddSpec(local, ignored, env, u);
    }
    WithoutSpec(local, env.mapping.Keys + Elems(Normalize(env.upstream)));
  }

  /** The stored pending lists are what a fresh detection would find. */
  ghost predicate Synced(ch: Channel, env: Env) {
    && ch.settings.detected == PendingAdd(Local(ch), Normalize(ch.settings.ignored), env)
    && ch.settings.removed == PendingRemove(Local(ch), env)
  }

  // ---- The models column ----

  lemma CommaFree(models: string)
    ensures forall m | m in Normalize(GetModels(models)) :: ',' !in m
  {
    NormalizeSpec(GetModels(models));
    if models != "" { SplitIsFree(Trim(models, Is(',')), ','); }
    forall m | m in Normalize(GetModels(models)) ensures ',' !in m {
      var y :| y in GetModels(models) && m == TrimSpace(y);
      TrimSpaceSpec(y);
    }
  }

  /** Storing a normal list and reading it back. */
  lemma ModelsRoundTrip(xs: seq<string>)
    requires Normal(xs) && Free(xs, ',')
    ensures Normalize(GetModels(Join(xs, ','))) == xs
  {
    NormalizeSpec(xs);
    if xs != [] {
      assert xs[0] in xs && xs[|xs| - 1] in xs;
      assert Name(xs[0]) && Name(xs[|xs| - 1]);
      JoinEnds(xs, ',');
      var last := xs[|xs| - 1];
      assert xs[0][0] in xs[0] && last[|last| - 1] in last;
      TrimSpec(Join(xs, ','), Is(','));
      SplitJoin(xs, ',');
    }
  }

  // ---- Applying a selection ----

  datatype Selection = Selection(add: seq<string>, ignore: seq<string>, remove: seq<string>)

  function Added(ch: Channel, sel: Selection): seq<string> {
    Intersect(sel.add, Normalize(ch.settings.detected))
  }

  function NewlyIgnored(ch: Channel, sel: Selection): seq<string> {
    Intersect(sel.ignore, Normalize(ch.settings.detected))
  }

  function Removed(ch: Channel, sel: Selection): seq<string> {
    Subtract(Intersect(sel.remove, Normalize(ch.settings.removed)), Added(ch, sel))
  }

  function NextModels(ch: Channel, sel: Selection): seq<string> {
    ApplySelected(Local(ch), Added(ch, sel), Removed(ch, sel))
  }

  function NextIgnored(ch: Channel, sel: Selection): seq<string> {
    var merged := Merge(ch.settings.ignored, NewlyIgnored(ch, sel));
    if |Added(ch, sel)| > 0 then Subtract(merged, Added(ch, sel)) else merged
  }

  function Applied(ch: Channel, sel: Selection, now: int): Channel {
    Channel(if Local(ch) == NextModels(ch, sel) then ch.models else Join(NextModels(ch, sel), ','),
            ch.settings.(ignored := NextIgnored(ch, sel),
                         detected := Subtract(Normalize(ch.settings.detected), Added(ch, sel) + NewlyIgnored(ch, sel)),
                         removed := Subtract(Normalize(ch.settings.removed), Removed(ch, sel)),
                         lastCheck := now))
  }

  // ---- The periodic check ----

  /** How a check is run: `minInterval` is the configured pause between unforced checks. */
  datatype Mode = Mode(force: bool, allowAutoApply: bool, minInterval: int)

  predicate Skips(ch: Channel, mode: Mode, now: int) {
    !mode.force && ch.settings.lastCheck > 0 && now - ch.settings.lastCheck < mode.minInterval
  }

  predicate AutoApplies(ch: Channel, mode: Mode, adds: seq<string>) {
    mode.allowAutoApply && ch.settings.autoSync && |adds| > 0
  }

  /** A channel that takes over what a detection found, and how many models it adds by itself. */
  function Took(ch: Channel, mode: Mode, adds: seq<string>, removes: seq<string>): (Channel, int) {
    if AutoApplies(ch, mode, adds) then
      var count := |Merge(Local(ch), adds)| - |Local(ch)|;
      (Channel(if count > 0 then Join(Merge(Local(ch), adds), ',') else ch.models, ch.settings.(detected := [], removed := removes)), count)
    else (ch.(settings := ch.settings.(detected := adds, removed := removes)), 0)
  }

  /** The channel after a check and the number of models added. `answered` is false when the
      upstream list could not be fetched. */
  function CheckResult(ch: Channel, mode: Mode, env: Env, answered: bool, now: int): (Channel, int) {
    var timed := ch.(settings := ch.settings.(lastCheck := now));
    if Skips(ch, mode, now) then (ch, 0)
    else if !answered then (timed, 0)
    else Took(timed, mode, PendingAdd(Local(ch), Normalize(ch.settings.ignored), env), PendingRemove(Local(ch), env))
  }

  function Checked(ch: Channel, mode: Mode, env: Env, answered: bool, now: int): Channel {
    CheckResult(ch, mode, env, answered, now).0
  }

  /** The rest of a check that found `adds` and `removes`. */
  method TakeOver(models: string, settings: Settings, mode: Mode, adds: seq<string>, removes: seq<string>)
    returns (models': string, settings': Settings, autoAdded: int)
    ensures (Channel(models', settings'), autoAdded) == Took(Channel(models, settings), mode, adds, removes)
    ensures autoAdded >= 0 && (autoAdded == 0 ==> models' == models)
  {
    models', settings', autoAdded := models, settings, 0;
    if mode.allowAutoApply && settings.autoSync && |adds| > 0 {
      var origin := Normalize(GetModels(models));
      var merged := MergeModelNames(origin, adds);
      assert |merged| >= |origin| by {
        NormalizeSpec(GetModels(models));
        NormalizeSpec(origin);
      }
      if |merged| > |origin| {
        models', autoAdded := Join(merged, ','), |merged| - |origin|;
      }
      settings' := settings'.(detected := []);
    } else {
      settings' := settings'.(detected := adds);
    }
    settings' := settings'.(removed := removes);
  }

  // ---- The operations as they change a channel ----

  /** A channel in memory together with its database row. */
  class ChannelRecord {
    var models: string
    var settings: Settings
    var stored: Channel

    ghost predicate Loaded()
      reads this
    {
      stored == Channel(models, settings)
    }

    constructor (row: Channel)
      ensures Loaded() && stored == row
    {
      models, settings, stored := row.models, row.settings, row;
    }

    /** updateChannelUpstreamModelSettings: the models column is written only when it changed. */
    method Persist(updateModels: bool, writeOk: bool)
      modifies this`stored
      ensures stored == if writeOk then Channel(if updateModels then models else old(stored.models), settings) else old(stored)
    {
      if writeOk {
        stored := Channel(if updateModels then models else stored.models, settings);
      }
    }

    method ApplyUpdates(sel: Selection, now: int, writeOk: bool)
      returns (added: seq<string>, removed: seq<string>, remaining: seq<string>, remainingRemove: seq<string>, modelsChanged: bool)
      requires Loaded()
      modifies this
      ensures stored == if writeOk then Applied(old(stored), sel, now) else old(stored)
      ensures writeOk ==> added == Added(old(stored), sel) && removed == Removed(old(stored), sel)
      ensures writeOk ==> remaining == stored.settings.detected && remainingRemove == stored.settings.removed
      ensures !writeOk ==> added == removed == remaining == remainingRemove == []
      ensures modelsChanged == (writeOk && Local(old(stored)) != NextModels(old(stored), sel))
    {
      var pendingAdd, pendingRemove := Normalize(settings.detected), Normalize(settings.removed);
      added := Intersect(sel.add, pendingAdd);
      var ignore := Intersect(sel.ignore, pendingAdd);
      removed := Intersect(sel.remove, pendingRemove);
      removed := Subtract(removed, added);
      var origin := Normalize(GetModels(models));
      var next := ApplySelected(origin, added, removed);
      modelsChanged := origin != next;
      if modelsChanged { models := Join(next, ','); }
      var ignored := MergeModelNames(settings.ignored, ignore);
      if |added| > 0 { ignored := Subtract(ignored, added); }
      remaining := Subtract(pendingAdd, added + ignore);
      remainingRemove := Subtract(pendingRemove, removed);
      settings := settings.(ignored := ignored, detected := remaining, removed := remainingRemove, lastCheck := now);
      Persist(modelsChanged, writeOk);
      if !writeOk {
        added, removed, remaining, remainingRemove, modelsChanged := [], [], [], [], false;
      }
    }

    method Check(mode: Mode, env: Env, answered: bool, now: int, writeOk: bool)
      returns (modelsChanged: bool, autoAdded: int)
      requires Loaded()
      modifies this
      ensures stored == if writeOk then Checked(old(stored), mode, env, answered, now) else old(stored)
      ensures autoAdded == CheckResult(old(stored), mode, env, answered, now).1
      ensures modelsChanged == (writeOk && autoAdded > 0)
    {
      modelsChanged, autoAdded := false, 0;
      if !mode.force && settings.lastCheck > 0 && now - settings.lastCheck < mode.minInterval {
        return;
      }
      var adds, removes := CollectPending(GetModels(models), settings.ignored, env);
      settings := settings.(lastCheck := now);
      if !answered {
        Persist(false, writeOk);
        return;
      }
      models, settings, autoAdded := TakeOver(models, settings, mode, adds, removes);
      Persist(autoAdded > 0, writeOk);
      modelsChanged := autoAdded > 0 && writeOk;
    }
  }
}
