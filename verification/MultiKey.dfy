/**
Multi-key channels: controller/channel.go keeps a channel's keys as one string and describes the
state of each key by its index, in three maps beside it; model/channel.go writes both back and
recomputes the number of keys. The JSON array parser is an input.
*/
module MultiKey {
  import opened Base
  import opened Text

  const NL := '\n'

  /** The raw elements of a JSON array, if the text is one. */
  type Parser = string -> Option<seq<string>>

  function Total(ks: seq<string>): nat {
    if ks == [] then 0 else |ks[0]| + Total(ks[1..])
  }

  /** What is used of JSON: the elements of an array lie between two brackets, with commas between
      them; the first is not empty, does not start with space, and is not the beginning of the
      array's own text. */
  ghost predicate IsJson(parse: Parser) {
    forall s :: parse(s).Some? ==>
      && Total(parse(s).value) + |parse(s).value| + 1 <= |s|
      && (parse(s).value != [] ==>
            var first := parse(s).value[0]; first != "" && !IsSpace(first[0]) && !(first <= s))
  }

  predicate Bracketed(key: string) {
    TrimSpace(key) != [] && TrimSpace(key)[0] == '['
  }

  function Parsed(parse: Parser, key: string): Option<seq<string>> {
    if Bracketed(key) then parse(TrimSpace(key)) else None
  }

  function Lines(key: string): seq<string> {
    Split(Trim(key, Is(NL)), NL)
  }

  /** GetKeys: the keys a channel is used with. */
  function Keys(parse: Parser, key: string): seq<string> {
    if key == "" then [] else if Parsed(parse, key).Some? then Parsed(parse, key).value else Lines(key)
  }

  /** The keys as Update counts them: an empty array falls back to lines. */
  function CountedKeys(parse: Parser, key: string): seq<string> {
    if key == "" then []
    else if Parsed(parse, key).Some? && Parsed(parse, key).value != [] then Parsed(parse, key).value
    else Lines(key)
  }

  // ---- The channel ----

  datatype Channel = Channel(key: string, size: int, status: map<nat, int>, time: map<nat, int>, reason: map<nat, string>)

  const ENABLED := 1
  const MANUALLY_DISABLED := 2
  const AUTO_DISABLED := 3

  function StatusOf(c: Channel, i: nat): int {
    if i in c.status then c.status[i] else ENABLED
  }

  datatype Entry = Entry(key: string, status: int, time: int, reason: string)

  /** What get_key_status shows of key `i`; time and reason only of a disabled key. */
  function EntryAt(c: Channel, key: string, i: nat): Entry {
    if StatusOf(c, i) == ENABLED then Entry(key, ENABLED, 0, "")
    else Entry(key, StatusOf(c, i), if i in c.time then c.time[i] else 0, if i in c.reason then c.reason[i] else "")
  }

  function View(parse: Parser, c: Channel): seq<Entry> {
    var keys := Keys(parse, c.key);
    seq(|keys|, i requires 0 <= i < |keys| => EntryAt(c, keys[i], i))
  }

  // ---- Writing back ----

  function Pruned(status: map<nat, int>, size: int): map<nat, int> {
    map i | i in status && i < size :: status[i]
  }

  /** Update: an empty key is not written, so the stored one stays. */
  function Saved(parse: Parser, c: Channel, next: Channel): Channel {
    var key := if next.key != "" then next.key else c.key;
    var size := |CountedKeys(parse, key)|;
    Channel(key, size, Pruned(next.status, size), next.time, next.reason)
  }

  // ---- Re-indexing ----

  /** The indices below `n` that are not dropped, in order. */
  function Survivors(n: nat, drop: set<nat>): seq<nat> {
    if n == 0 then [] else Survivors(n - 1, drop) + if n - 1 in drop then [] else [n - 1]
  }

  lemma {:induction false} SurvivorsSpec(n: nat, drop: set<nat>)
    ensures forall i :: i in Survivors(n, drop) <==> 0 <= i < n && i !in drop
    ensures forall j, k :: 0 <= j < k < |Survivors(n, drop)| ==> Survivors(n, drop)[j] < Survivors(n, drop)[k]
  {
    if n > 0 {
      SurvivorsSpec(n - 1, drop);
      var before := Survivors(n - 1, drop);
      assert forall j :: 0 <= j < |before| ==> before[j] in before;
    }
  }

  /** The elements at the surviving indices. */
  function Kept<T>(xs: seq<T>, n: nat, drop: set<nat>): (ys: seq<T>)
    requires n <= |xs|
    ensures |ys| == |Survivors(n, drop)|
  {
    if n == 0 then [] else Kept(xs, n - 1, drop) + if n - 1 in drop then [] else [xs[n - 1]]
  }

  lemma {:induction false} KeptAt<T>(xs: seq<T>, n: nat, drop: set<nat>, j: nat)
    requires n <= |xs| && j < |Survivors(n, drop)|
    ensures Survivors(n, drop)[j] < n && Kept(xs, n, drop)[j] == xs[Survivors(n, drop)[j]]
  {
    if j < |Survivors(n - 1, drop)| { KeptAt(xs, n - 1, drop, j); }
  }

  /** A map by index, moved along with the surviving keys. */
  function Moved<V>(m: map<nat, V>, n: nat, drop: set<nat>): map<nat, V> {
    if n == 0 then map[]
    else
      var before := Moved(m, n - 1, drop);
      if n - 1 in drop || n - 1 !in m then before else before[|Survivors(n - 1, drop)| := m[n - 1]]
  }

  /** The new index `j` has what the surviving old index had. */
  lemma {:induction false} MovedAt<V>(m: map<nat, V>, n: nat, drop: set<nat>, j: nat)
    ensures j in Moved(m, n, drop) <==> j < |Survivors(n, drop)| && Survivors(n, drop)[j] in m
    ensures j in Moved(m, n, drop) ==> Moved(m, n, drop)[j] == m[Survivors(n, drop)[j]]
  {
    if n > 0 { MovedAt(m, n - 1, drop, j); }
  }

  /** delete_disabled_keys forgets the time and reason of enabled keys, delete_key keeps them. */
  function Times(c: Channel, forget: bool): map<nat, int> {
    if forget then Only(c.time, Disabled(c).Keys) else c.time
  }

  function Reasons(c: Channel, forget: bool): map<nat, string> {
    if forget then Only(c.reason, Disabled(c).Keys) else c.reason
  }

  function Disabled(c: Channel): map<nat, int> {
    map i | i in c.status && c.status[i] != ENABLED :: c.status[i]
  }

  function Only<V>(m: map<nat, V>, keys: set<nat>): map<nat, V> {
    map i | i in m && i in keys :: m[i]
  }

  function AutoDisabled(parse: Parser, c: Channel): set<nat> {
    set i | 0 <= i < |Keys(parse, c.key)| && StatusOf(c, i) == AUTO_DISABLED
  }

  /** The surviving keys with their status. */
  function Without(parse: Parser, c: Channel, drop: set<nat>, forget: bool): Channel {
    var n := |Keys(parse, c.key)|;
    Channel(Join(Remaining(parse, c, drop), NL), |Survivors(n, drop)|,
            Moved(Disabled(c), n, drop), Moved(Times(c, forget), n, drop), Moved(Reasons(c, forget), n, drop))
  }

  function Remaining(parse: Parser, c: Channel, drop: set<nat>): seq<string> {
    Kept(Keys(parse, c.key), |Keys(parse, c.key)|, drop)
  }

  // ---- Appending ----

  /** `text` is the posted key; `vertex` the parsed keys of a Vertex channel. */
  datatype Request = Request(text: string, vertex: Option<seq<string>>)

  function NonBlank(ks: seq<string>): seq<string> {
    if ks == [] then []
    else NonBlank(ks[..|ks| - 1]) + if TrimSpace(ks[|ks| - 1]) == "" then [] else [TrimSpace(ks[|ks| - 1])]
  }

  function NewKeys(r: Request): seq<string> {
    if r.vertex.Some? then r.vertex.value else NonBlank(Split(r.text, NL))
  }

  /** The existing keys as appending reads them: an array that does not parse has none. */
  function ExistingKeys(parse: Parser, key: string): seq<string> {
    if Bracketed(key) then (if Parsed(parse, key).Some? then Parsed(parse, key).value else []) else Lines(key)
  }

  function Normalized(ks: seq<string>): set<string> {
    set k | k in ks && TrimSpace(k) != "" :: TrimSpace(k)
  }

  /** The new keys that are not blank and not seen before. */
  function Deduped(ks: seq<string>, seen: set<string>): seq<string> {
    if ks == [] then []
    else
      var before := Deduped(ks[..|ks| - 1], seen);
      var k := TrimSpace(ks[|ks| - 1]);
      if k == "" || k in seen || k in before then before else before + [k]
  }

  function Fresh(parse: Parser, c: Channel, r: Request): seq<string> {
    Deduped(NewKeys(r), Normalized(ExistingKeys(parse, c.key)))
  }

  function AppendedKey(parse: Parser, c: Channel, r: Request): string {
    if c.key == "" then r.text else Join(ExistingKeys(parse, c.key) + Fresh(parse, c, r), NL)
  }

  // ---- The management actions ----

  datatype Action =
    | DisableKey(i: int) | EnableKey(i: int) | EnableAll | DisableAll
    | DeleteKey(i: int) | DeleteDisabled | Append(r: Request)

  function AllDisabled(c: Channel): map<nat, int> {
    c.status + (map i | 0 <= i < c.size && StatusOf(c, i) == ENABLED :: MANUALLY_DISABLED)
  }

  predicate InRange(c: Channel, i: int) {
    0 <= i < c.size
  }

  /** The action is refused and changes nothing. */
  predicate Refused(parse: Parser, c: Channel, a: Action) {
    match a
    case DisableKey(i) => !InRange(c, i)
    case EnableKey(i) => !InRange(c, i)
    case EnableAll => false
    case DisableAll => forall i | 0 <= i < c.size :: StatusOf(c, i) != ENABLED
    case DeleteKey(i) => !InRange(c, i) || Remaining(parse, c, {i}) == []
    case DeleteDisabled => AutoDisabled(parse, c) == {}
    case Append(r) => false
  }

  function Done(parse: Parser, c: Channel, a: Action): Channel {
    if Refused(parse, c, a) then c
    else
      match a
      case DisableKey(i) => Saved(parse, c, c.(status := c.status[i := MANUALLY_DISABLED]))
      case EnableKey(i) => Saved(parse, c, c.(status := c.status - {i}, time := c.time - {i}, reason := c.reason - {i}))
      case EnableAll => Saved(parse, c, c.(status := map[], time := map[], reason := map[]))
      case DisableAll => Saved(parse, c, c.(status := AllDisabled(c)))
      case DeleteKey(i) => Saved(parse, c, Without(parse, c, {i}, false))
      case DeleteDisabled => Saved(parse, c, Without(parse, c, AutoDisabled(parse, c), true))
      case Append(r) => Saved(parse, c, c.(key := AppendedKey(parse, c, r)))
  }

  method PruneStatus(status: map<nat, int>, size: int) returns (pruned: map<nat, int>)
    ensures pruned == Pruned(status, size)
  {
    pruned := status;
    var todo := status.Keys;
    while todo != {}
      invariant todo <= status.Keys
      invariant forall i :: i in pruned <==> i in status && (i in todo || i < size)
      invariant forall i | i in pruned :: pruned[i] == status[i]
      decreases todo
    {
      var i :| i in todo;
      if i >= size { pruned := pruned - {i}; }
      todo := todo - {i};
    }
  }

  /** The re-indexing loop of delete_key and delete_disabled_keys. */
  method ReindexKeys(keys: seq<string>, c: Channel, drop: set<nat>, forget: bool) returns (remaining: seq<string>, part: Channel)
    ensures remaining == Kept(keys, |keys|, drop)
    ensures part == Channel("", 0, Moved(Disabled(c), |keys|, drop), Moved(Times(c, forget), |keys|, drop), Moved(Reasons(c, forget), |keys|, drop))
  {
    remaining := [];
    var status: map<nat, int>, time: map<nat, int>, reason: map<nat, string> := map[], map[], map[];
    for i := 0 to |keys|
      invariant remaining == Kept(keys, i, drop) && status == Moved(Disabled(c), i, drop)
      invariant time == Moved(Times(c, forget), i, drop) && reason == Moved(Reasons(c, forget), i, drop)
    {
      if i !in drop {
        var newIndex := |remaining|;
        remaining := remaining + [keys[i]];
        if i in c.status && c.status[i] != ENABLED { status := status[newIndex := c.status[i]]; }
        if !forget || StatusOf(c, i) != ENABLED {
          if i in c.time { time := time[newIndex := c.time[i]]; }
          if i in c.reason { reason := reason[newIndex := c.reason[i]]; }
        }
      }
    }
    part := Channel("", 0, status, time, reason);
  }

  method Reindex(parse: Parser, c: Channel, drop: set<nat>, forget: bool) returns (remaining: seq<string>, next: Channel)
    ensures remaining == Remaining(parse, c, drop) && next == Without(parse, c, drop, forget)
  {
    var part;
    remaining, part := ReindexKeys(Keys(parse, c.key), c, drop, forget);
    next := part.(key := Join(remaining, NL), size := |remaining|);
  }

  class MultiKeyChannel {
    const parse: Parser
    var key: string
    var size: int
    var status: map<nat, int>
    var time: map<nat, int>
    var reason: map<nat, string>

    constructor (parser: Parser, c: Channel)
      ensures parse == parser && State() == c
    {
      parse := parser;
      key, size, status, time, reason := c.key, c.size, c.status, c.time, c.reason;
    }

    function State(): Channel
      reads this
    {
      Channel(key, size, status, time, reason)
    }

    /** Channel.Update. */
    method Save(next: Channel)
      modifies this
      ensures State() == Saved(parse, old(State()), next)
    {
      if next.key != "" { key := next.key; }
      size := |CountedKeys(parse, key)|;
      status := PruneStatus(next.status, size);
      time, reason := next.time, next.reason;
    }

    method Disable(index: Option<int>) returns (ok: bool)
      modifies this
      ensures State() == if index.None? then old(State()) else Done(parse, old(State()), DisableKey(index.value))
      ensures ok == (index.Some? && !Refused(parse, old(State()), DisableKey(index.value)))
    {
      ok := index.Some? && 0 <= index.value < size;
      if ok { Save(State().(status := status[index.value := MANUALLY_DISABLED])); }
    }

    method Enable(index: Option<int>) returns (ok: bool)
      modifies this
      ensures State() == if index.None? then old(State()) else Done(parse, old(State()), EnableKey(index.value))
      ensures ok == (index.Some? && !Refused(parse, old(State()), EnableKey(index.value)))
    {
      ok := index.Some? && 0 <= index.value < size;
      if ok {
        var i := index.value;
        Save(State().(status := status - {i}, time := time - {i}, reason := reason - {i}));
      }
    }

    method EnableAllKeys() returns (count: nat)
      modifies this
      ensures State() == Done(parse, old(State()), EnableAll) && count == |old(status)|
    {
      count := |status|;
      Save(State().(status := map[], time := map[], reason := map[]));
    }

    method DisableAllKeys() returns (ok: bool)
      modifies this
      ensures State() == Done(parse, old(State()), DisableAll) && ok == !Refused(parse, old(State()), DisableAll)
    {
      var c := State();
      var next, disabled := status, 0;
      var n := if size >= 0 then size else 0;
      for i := 0 to n
        invariant forall j :: j in next <==> j in c.status || 0 <= j < i
        invariant forall j | j in next :: next[j] == if 0 <= j < i && StatusOf(c, j) == ENABLED then MANUALLY_DISABLED else StatusOf(c, j)
        invariant disabled >= 0 && (disabled == 0 <==> forall j | 0 <= j < i :: StatusOf(c, j) != ENABLED)
      {
        if StatusOf(c, i) == ENABLED {
          next, disabled := next[i := MANUALLY_DISABLED], disabled + 1;
        }
      }
      ok := disabled > 0;
      if ok {
        assert next == AllDisabled(c);
        Save(c.(status := next));
      }
    }

    method Delete(index: Option<int>) returns (ok: bool)
      modifies this
      ensures State() == if index.None? then old(State()) else Done(parse, old(State()), DeleteKey(index.value))
      ensures ok == (index.Some? && !Refused(parse, old(State()), DeleteKey(index.value)))
    {
      ok := index.Some? && 0 <= index.value < size;
      if ok {
        var remaining, next := Reindex(parse, State(), {index.value}, false);
        ok := |remaining| != 0;
        if ok { Save(next); }
      }
    }

    method DeleteDisabledKeys() returns (count: nat)
      modifies this
      ensures State() == Done(parse, old(State()), DeleteDisabled)
      ensures count == |AutoDisabled(parse, old(State()))|
    {
      var drop := AutoDisabled(parse, State());
      var remaining, next := Reindex(parse, State(), drop, true);
      count := |drop|;
      if count != 0 { Save(next); }
    }

    method AppendKeys(r: Request)
      modifies this
      ensures State() == Done(parse, old(State()), Append(r))
    {
      var next := State();
      if key == "" {
        next := next.(key := r.text);
      } else {
        var existing, newKeys := ExistingKeys(parse, key), NewKeys(r);
        var seen := Seen(existing);
        var deduped := Dedupe(newKeys, seen);
        next := next.(key := Join(existing + deduped, NL));
      }
      Save(next);
    }
  }

  method Seen(ks: seq<string>) returns (seen: set<string>)
    ensures seen == Normalized(ks)
  {
    seen := {};
    for i := 0 to |ks|
      invariant forall k :: k in seen <==> exists j :: 0 <= j < i && TrimSpace(ks[j]) == k && k != ""
    {
      if TrimSpace(ks[i]) != "" { seen := seen + {TrimSpace(ks[i])}; }
    }
    forall k ensures k in seen <==> k in Normalized(ks) {}
  }

  method Dedupe(ks: seq<string>, known: set<string>) returns (deduped: seq<string>)
    ensures deduped == Deduped(ks, known)
  {
    deduped := [];
    var seen := known;
    for i := 0 to |ks|
      invariant deduped == Deduped(ks[..i], known)
      invariant forall k :: k in seen <==> k in known || k in deduped
    {
      assert ks[..i + 1][..i] == ks[..i];
      var k := TrimSpace(ks[i]);
      if k != "" && k !in seen {
        seen := seen + {k};
        deduped := deduped + [k];
      }
    }
    assert ks[..|ks|] == ks;
  }
}
