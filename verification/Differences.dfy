/**
The price-difference builder of controller/ratio_sync.go: the local price tables against those
of any number of upstream channels, built in several passes over nested maps and then pruned.
Numbers are reals. A table that is absent or is not a table of values counts as empty.
*/
module Differences {

  import opened Base

  /** The synchronised fields, in the source's order. */
  datatype Field =
    | ModelRatio | CompletionRatio | CacheRatio | CreateCacheRatio | ImageRatio
    | AudioRatio | AudioCompletionRatio | ModelPrice | BillingMode | BillingExpr

  const FIELDS: seq<Field> := [ModelRatio, CompletionRatio, CacheRatio, CreateCacheRatio, ImageRatio,
                               AudioRatio, AudioCompletionRatio, ModelPrice, BillingMode, BillingExpr]

  /** The dynamic values a table may hold. */
  datatype Value = Nil | Num(r: real) | Int(i: int) | Text(s: string) | Flag(b: bool)

  const SAME: Value := Text("same")
  const EPSILON: real := 0.000000001

  type Prices = map<Field, map<string, Value>>

  datatype Channel = Channel(name: string, data: Prices)

  datatype Item = Item(current: Value, upstreams: map<string, Value>, confidence: map<string, bool>)

  type Row = map<Field, Item>
  type Report = map<string, Row>

  predicate NearlyEqual(a: real, b: real) {
    if a > b then a - b < EPSILON else b - a < EPSILON
  }

  predicate ValuesEqual(a: Value, b: Value) {
    if a.Num? && b.Num? then NearlyEqual(a.r, b.r) else a == b
  }

  function AsFloat(v: Value): Option<real> {
    match v
    case Num(r) => Some(r)
    case Int(i) => Some(i as real)
    case _ => None
  }

  function NormalizeSyncValue(f: Field, v: Value): Value {
    if f != BillingMode && f != BillingExpr && AsFloat(v).Some? then Num(AsFloat(v).value) else v
  }

  function Table(p: Prices, f: Field): map<string, Value> {
    if f in p then p[f] else map[]
  }

  /** A price as the comparison sees it. */
  function Price(p: Prices, f: Field, m: string): Option<Value> {
    if m in Table(p, f) then Some(NormalizeSyncValue(f, Table(p, f)[m])) else None
  }

  function Local(local: Prices, f: Field, m: string): Value {
    if Price(local, f, m).Some? then Price(local, f, m).value else Nil
  }

  // ---- The declarative specification ----

  /** The channel has a price for (model, field) and the local one is missing or not equal to it. */
  predicate Differs(local: Prices, ch: Channel, f: Field, m: string) {
    && Price(ch.data, f, m).Some?
    && (Local(local, f, m) == Nil || !ValuesEqual(Local(local, f, m), Price(ch.data, f, m).value))
  }

  ghost predicate DiffersSomewhere(local: Prices, ch: Channel) {
    exists f, m :: Differs(local, ch, f, m)
  }

  ghost predicate HasEntry(local: Prices, chs: seq<Channel>, f: Field, m: string) {
    exists i :: 0 <= i < |chs| && Differs(local, chs[i], f, m)
  }

  /** What is shown for a channel: its price if it differs, nothing if only the local side has
      one, "same" otherwise. */
  function Shown(local: Prices, ch: Channel, f: Field, m: string): Value {
    if Differs(local, ch, f, m) then Price(ch.data, f, m).value
    else if Price(ch.data, f, m).None? && Local(local, f, m) != Nil then Nil
    else SAME
  }

  /** The default of 37.5 with a completion ratio of 1 marks an untrustworthy answer. */
  predicate Trusted(ch: Channel, m: string) {
    !Suspicious(Table(ch.data, ModelRatio), Table(ch.data, CompletionRatio), m)
  }

  ghost function Names(chs: seq<Channel>): set<string> {
    set i | 0 <= i < |chs| :: chs[i].name
  }

  /** The channels that differ somewhere. */
  ghost function Differing(local: Prices, chs: seq<Channel>): set<string> {
    set i | 0 <= i < |chs| && DiffersSomewhere(local, chs[i]) :: chs[i].name
  }

  /** The item lists exactly the channels in `names`, each with what `show` and `trust` say. */
  ghost predicate Lists(item: Item, chs: seq<Channel>, names: set<string>, show: Channel -> Value, trust: Channel -> bool) {
    && item.upstreams.Keys == names && item.confidence.Keys == names
    && (forall i | 0 <= i < |chs| && chs[i].name in names ::
          item.upstreams[chs[i].name] == show(chs[i]) && item.confidence[chs[i].name] == trust(chs[i]))
  }

  function Show(local: Prices, f: Field, m: string): Channel -> Value {
    (ch: Channel) => Shown(local, ch, f, m)
  }

  function Trust(m: string): Channel -> bool {
    (ch: Channel) => Trusted(ch, m)
  }

  ghost predicate ItemIs(item: Item, local: Prices, chs: seq<Channel>, f: Field, m: string, names: set<string>) {
    item.current == Local(local, f, m) && Lists(item, chs, names, Show(local, f, m), Trust(m))
  }

  ghost predicate RowIs(row: Row, local: Prices, chs: seq<Channel>, m: string, names: set<string>) {
    && (forall f :: f in row <==> HasEntry(local, chs, f, m))
    && (forall f | f in row :: ItemIs(row[f], local, chs, f, m, names))
  }

  ghost predicate InReport(local: Prices, chs: seq<Channel>, m: string) {
    exists f :: HasEntry(local, chs, f, m)
  }

  ghost predicate ReportIs(d: Report, local: Prices, chs: seq<Channel>, names: set<string>) {
    && (forall m :: m in d <==> InReport(local, chs, m))
    && (forall m | m in d :: RowIs(d[m], local, chs, m, names))
  }

  /** The hypotheses: distinct channel names, and no price that is null or the word "same". */
  ghost predicate Distinct(chs: seq<Channel>) {
    forall i, j | 0 <= i < j < |chs| :: chs[i].name != chs[j].name
  }

  ghost predicate Legible(chs: seq<Channel>) {
    forall i, f, m | 0 <= i < |chs| && Price(chs[i].data, f, m).Some? ::
      Price(chs[i].data, f, m).value != Nil && Price(chs[i].data, f, m).value != SAME
  }

  /** The specification determines the report. */
  lemma ReportUnique(d: Report, e: Report, local: Prices, chs: seq<Channel>, names: set<string>)
    requires names <= Names(chs) && ReportIs(d, local, chs, names) && ReportIs(e, local, chs, names)
    ensures d == e
  {
    assert d.Keys == e.Keys by {
      forall m ensures m in d <==> m in e { assert m in d <==> InReport(local, chs, m); }
    }
    forall m | m in d.Keys ensures d[m] == e[m] {
      assert RowIs(d[m], local, chs, m, names) && RowIs(e[m], local, chs, m, names);
      RowUnique(d[m], e[m], local, chs, m, names);
    }
  }

  lemma RowUnique(a: Row, b: Row, local: Prices, chs: seq<Channel>, m: string, names: set<string>)
    requires names <= Names(chs) && RowIs(a, local, chs, m, names) && RowIs(b, local, chs, m, names)
    ensures a == b
  {
    assert a.Keys == b.Keys by {
      forall f ensures f in a <==> f in b { assert f in a <==> HasEntry(local, chs, f, m); }
    }
    forall f | f in a.Keys ensures a[f] == b[f] { ItemUnique(a[f], b[f], local, chs, f, m, names); }
  }

  lemma ItemUnique(a: Item, b: Item, local: Prices, chs: seq<Channel>, f: Field, m: string, names: set<string>)
    requires names <= Names(chs) && ItemIs(a, local, chs, f, m, names) && ItemIs(b, local, chs, f, m, names)
    ensures a == b
  {
    ListUnique(a, b, chs, names, Show(local, f, m), Trust(m));
  }

  lemma ListUnique(a: Item, b: Item, chs: seq<Channel>, names: set<string>, show: Channel -> Value, trust: Channel -> bool)
    requires names <= Names(chs) && a.current == b.current && Lists(a, chs, names, show, trust) && Lists(b, chs, names, show, trust)
    ensures a == b
  {
    forall n | n in names ensures a.upstreams[n] == b.upstreams[n] && a.confidence[n] == b.confidence[n] {
      var i :| 0 <= i < |chs| && chs[i].name == n;
    }
    assert a.upstreams == b.upstreams;
    assert a.confidence == b.confidence;
  }

  // ---- First pass: the models ----

  ghost predicate Mentions(p: Prices, m: string) {
    exists f :: m in Table(p, f)
  }

  method ModelsOf(p: Prices) returns (models: set<string>)
    ensures forall m :: m in models <==> Mentions(p, m)
  {
    models := {};
    for i := 0 to |FIELDS|
      invariant forall m :: m in models <==> exists j :: 0 <= j < i && m in Table(p, FIELDS[j])
    {
      models := models + Table(p, FIELDS[i]).Keys;
    }
    forall m ensures m in models <==> Mentions(p, m) {
      if f :| m in Table(p, f) {
        var j := FieldIndex(f);
        assert m in Table(p, FIELDS[j]);
      }
    }
  }

  function FieldIndex(f: Field): (j: nat)
    ensures j < |FIELDS| && FIELDS[j] == f
  {
    match f
    case ModelRatio => 0
    case CompletionRatio => 1
    case CacheRatio => 2
    case CreateCacheRatio => 3
    case ImageRatio => 4
    case AudioRatio => 5
    case AudioCompletionRatio => 6
    case ModelPrice => 7
    case BillingMode => 8
    case BillingExpr => 9
  }

  method AllModels(local: Prices, chs: seq<Channel>) returns (models: set<string>)
    ensures forall m :: m in models <==> Mentions(local, m) || exists i :: 0 <= i < |chs| && Mentions(chs[i].data, m)
  {
    models := ModelsOf(local);
    for i := 0 to |chs|
      invariant forall m :: m in models <==> Mentions(local, m) || exists j :: 0 <= j < i && Mentions(chs[j].data, m)
    {
      var more := ModelsOf(chs[i].data);
      models := models + more;
    }
  }

  // ---- The loop over the channels ----

  /** A map keyed by channel name after the first `n` channels: a later channel of the same
      name overwrites an earlier one. */
  function Entered<V>(chs: seq<Channel>, n: nat, g: Channel -> V): map<string, V>
    requires n <= |chs|
  {
    if n == 0 then map[] else Entered(chs, n - 1, g)[chs[n - 1].name := g(chs[n - 1])]
  }

  lemma {:induction false} EnteredSpec<V>(chs: seq<Channel>, n: nat, g: Channel -> V)
    requires n <= |chs| && Distinct(chs)
    ensures Entered(chs, n, g).Keys == set i | 0 <= i < n :: chs[i].name
    ensures forall i | 0 <= i < n :: Entered(chs, n, g)[chs[i].name] == g(chs[i])
  {
    if n > 0 {
      EnteredSpec(chs, n - 1, g);
      assert forall i | 0 <= i < n - 1 :: chs[i].name != chs[n - 1].name;
    }
  }

  // ---- Second pass: confidence ----

  /** The test of the source, on one model. */
  predicate Suspicious(ratios: map<string, Value>, completions: map<string, Value>, m: string) {
    && m in ratios && m in completions
    && AsFloat(ratios[m]).Some? && AsFloat(completions[m]).Some?
    && NearlyEqual(AsFloat(ratios[m]).value, 37.5) && NearlyEqual(AsFloat(completions[m]).value, 1.0)
  }

  method ChannelConfidence(ch: Channel, models: set<string>) returns (conf: map<string, bool>)
    ensures conf == map m | m in models :: Trusted(ch, m)
  {
    conf := map[];
    var ratios, completions := Table(ch.data, ModelRatio), Table(ch.data, CompletionRatio);
    var both := |ratios| > 0 && |completions| > 0;
    var todo := models;
    while todo != {}
      invariant todo <= models && conf.Keys == models - todo
      invariant forall m | m in conf :: conf[m] == !Suspicious(ratios, completions, m)
      decreases todo
    {
      var m :| m in todo;
      var trusted := !(both && Suspicious(ratios, completions, m));
      conf := conf[m := trusted];
      todo := todo - {m};
    }
  }

  function TrustTable(models: set<string>): Channel -> map<string, bool> {
    (ch: Channel) => map m | m in models :: Trusted(ch, m)
  }

  method Confidences(chs: seq<Channel>, models: set<string>) returns (conf: map<string, map<string, bool>>)
    ensures conf == Entered(chs, |chs|, TrustTable(models))
  {
    conf := map[];
    for i := 0 to |chs|
      invariant conf == Entered(chs, i, TrustTable(models))
    {
      var one := ChannelConfidence(chs[i], models);
      conf := conf[chs[i].name := one];
    }
  }

  // ---- Third pass: one entry ----

  /** The value recorded for one channel, branch by branch as in the source. */
  function Cell(localValue: Value, price: Option<Value>): Value {
    var shown := if price.None? then Nil
                 else if localValue != Nil && !ValuesEqual(localValue, price.value) then price.value
                 else if ValuesEqual(localValue, price.value) then SAME
                 else price.value;
    if shown == Nil && localValue == Nil then SAME else shown
  }

  predicate CellDiffers(localValue: Value, price: Option<Value>) {
    || (price.Some? && localValue != Nil && !ValuesEqual(localValue, price.value))
    || (localValue == Nil && Cell(localValue, price) != Nil && Cell(localValue, price) != SAME)
  }

  /** On a legible price this is what the specification shows. */
  lemma CellSpec(local: Prices, ch: Channel, f: Field, m: string)
    requires var price := Price(ch.data, f, m); price.Some? ==> price.value != Nil && price.value != SAME
    ensures Cell(Local(local, f, m), Price(ch.data, f, m)) == Shown(local, ch, f, m)
    ensures CellDiffers(Local(local, f, m), Price(ch.data, f, m)) == Differs(local, ch, f, m)
  {}

  function Cells(local: Prices, f: Field, m: string): Channel -> Value {
    (ch: Channel) => Cell(Local(local, f, m), Price(ch.data, f, m))
  }

  function Confident(conf: map<string, map<string, bool>>, m: string): Channel -> bool {
    (ch: Channel) => ch.name in conf && m in conf[ch.name] && conf[ch.name][m]
  }

  function Priced(f: Field, m: string): Channel -> bool {
    (ch: Channel) => Price(ch.data, f, m).Some?
  }

  function Deviates(local: Prices, f: Field, m: string): Channel -> bool {
    (ch: Channel) => CellDiffers(Local(local, f, m), Price(ch.data, f, m))
  }

  /** A flag that any of the first `n` channels raises. */
  predicate RaisedBy(chs: seq<Channel>, n: nat, p: Channel -> bool)
    requires n <= |chs|
  {
    n > 0 && (RaisedBy(chs, n - 1, p) || p(chs[n - 1]))
  }

  predicate Included(local: Prices, chs: seq<Channel>, f: Field, m: string) {
    RaisedBy(chs, |chs|, if Local(local, f, m) != Nil then Deviates(local, f, m) else Priced(f, m))
  }

  function RawItem(local: Prices, chs: seq<Channel>, conf: map<string, map<string, bool>>, f: Field, m: string): Item {
    Item(Local(local, f, m), Entered(chs, |chs|, Cells(local, f, m)), Entered(chs, |chs|, Confident(conf, m)))
  }

  /** The loop over the channels; the arguments say what each turn computes from its channel. */
  method CollectUpstreams(chs: seq<Channel>, cell: Channel -> Value, trust: Channel -> bool,
                          priced: Channel -> bool, deviates: Channel -> bool)
    returns (hasUpstreamValue: bool, hasDifference: bool, upstreams: map<string, Value>, confidence: map<string, bool>)
    ensures hasUpstreamValue == RaisedBy(chs, |chs|, priced) && hasDifference == RaisedBy(chs, |chs|, deviates)
    ensures upstreams == Entered(chs, |chs|, cell) && confidence == Entered(chs, |chs|, trust)
  {
    upstreams, confidence, hasUpstreamValue, hasDifference := map[], map[], false, false;
    for i := 0 to |chs|
      invariant hasUpstreamValue == RaisedBy(chs, i, priced) && hasDifference == RaisedBy(chs, i, deviates)
      invariant upstreams == Entered(chs, i, cell) && confidence == Entered(chs, i, trust)
    {
      var ch := chs[i];
      if priced(ch) { hasUpstreamValue := true; }
      if deviates(ch) { hasDifference := true; }
      upstreams := upstreams[ch.name := cell(ch)];
      confidence := confidence[ch.name := trust(ch)];
    }
  }

  method BuildItem(local: Prices, chs: seq<Channel>, conf: map<string, map<string, bool>>, f: Field, m: string)
    returns (included: bool, item: Item)
    ensures included == Included(local, chs, f, m) && item == RawItem(local, chs, conf, f, m)
  {
    var localValue := Local(local, f, m);
    var hasUpstreamValue, hasDifference, upstreams, confidence :=
      CollectUpstreams(chs, Cells(local, f, m), Confident(conf, m), Priced(f, m), Deviates(local, f, m));
    included := if localValue != Nil then hasDifference else hasUpstreamValue;
    item := Item(localValue, upstreams, confidence);
  }

  function RawRow(local: Prices, chs: seq<Channel>, conf: map<string, map<string, bool>>, m: string): Row {
    map f: Field | Included(local, chs, f, m) :: RawItem(local, chs, conf, f, m)
  }

  method BuildRow(local: Prices, chs: seq<Channel>, conf: map<string, map<string, bool>>, m: string) returns (row: Row)
    ensures row == RawRow(local, chs, conf, m)
  {
    row := map[];
    for i := 0 to |FIELDS|
      invariant forall f :: f in row <==> FieldIndex(f) < i && Included(local, chs, f, m)
      invariant forall f | f in row :: row[f] == RawItem(local, chs, conf, f, m)
    {
      var included, item := BuildItem(local, chs, conf, FIELDS[i], m);
      assert forall f :: FieldIndex(f) == i <==> f == FIELDS[i];
      if included { row := row[FIELDS[i] := item]; }
    }
  }

  /** Every model that has an entry, with its entries. */
  ghost predicate RawIs(raw: Report, local: Prices, chs: seq<Channel>, models: set<string>) {
    && (forall m :: m in raw <==> m in models && RawRow(local, chs, Entered(chs, |chs|, TrustTable(models)), m) != map[])
    && (forall m | m in raw :: raw[m] == RawRow(local, chs, Entered(chs, |chs|, TrustTable(models)), m))
  }

  method BuildRaw(local: Prices, chs: seq<Channel>, models: set<string>) returns (raw: Report)
    ensures RawIs(raw, local, chs, models)
  {
    var conf := Confidences(chs, models);
    raw := map[];
    var todo := models;
    while todo != {}
      invariant todo <= models
      invariant forall m :: m in raw <==> m in models && m !in todo && RawRow(local, chs, conf, m) != map[]
      invariant forall m | m in raw :: raw[m] == RawRow(local, chs, conf, m)
      decreases todo
    {
      var m :| m in todo;
      var row := BuildRow(local, chs, conf, m);
      if |row| != 0 {
        raw := raw[m := row];
      }
      todo := todo - {m};
    }
  }

  // ---- Fourth pass: which channels differ ----

  predicate Marks(item: Item, n: string) {
    n in item.upstreams && item.upstreams[n] != Nil && item.upstreams[n] != SAME
  }

  function ItemMarks(item: Item): set<string> {
    set n | n in item.upstreams && Marks(item, n)
  }

  ghost predicate RowMarksName(row: Row, n: string) {
    exists f :: f in row && Marks(row[f], n)
  }

  method RowMarks(row: Row) returns (marked: set<string>)
    ensures forall n :: n in marked <==> RowMarksName(row, n)
  {
    marked := {};
    var todo := row.Keys;
    while todo != {}
      invariant todo <= row.Keys
      invariant forall n :: n in marked <==> exists f :: f in row && f !in todo && Marks(row[f], n)
      decreases todo
    {
      var f :| f in todo;
      marked := marked + ItemMarks(row[f]);
      todo := todo - {f};
    }
  }

  method MarkedChannels(raw: Report) returns (marked: set<string>)
    ensures forall n :: n in marked <==> exists m :: m in raw && RowMarksName(raw[m], n)
  {
    marked := {};
    var todo := raw.Keys;
    while todo != {}
      invariant todo <= raw.Keys
      invariant forall n :: n in marked <==> exists m :: m in raw && m !in todo && RowMarksName(raw[m], n)
      decreases todo
    {
      var m :| m in todo;
      var more := RowMarks(raw[m]);
      marked := marked + more;
      todo := todo - {m};
    }
  }

  // ---- Fifth pass: pruning in place ----

  function PrunedItem(item: Item, marked: set<string>): Item {
    Item(item.current, item.upstreams - (item.upstreams.Keys - marked), item.confidence - (item.upstreams.Keys - marked))
  }

  predicate Keeps(item: Item, marked: set<string>) {
    exists n :: n in item.upstreams && n in marked && item.upstreams[n] != SAME
  }

  function PrunedRow(row: Row, marked: set<string>): Row {
    map f | f in row && Keeps(row[f], marked) :: PrunedItem(row[f], marked)
  }

  function Pruned(raw: Report, marked: set<string>): Report {
    map m | m in raw && PrunedRow(raw[m], marked) != map[] :: PrunedRow(raw[m], marked)
  }

  method PruneItem(item: Item, marked: set<string>) returns (pruned: Item, keep: bool)
    ensures pruned == PrunedItem(item, marked) && keep == Keeps(item, marked)
  {
    var upstreams, confidence := item.upstreams, item.confidence;
    var todo := item.upstreams.Keys;
    while todo != {}
      invariant todo <= item.upstreams.Keys
      invariant forall n :: n in upstreams <==> n in item.upstreams && (n in marked || n in todo)
      invariant forall n | n in upstreams :: upstreams[n] == item.upstreams[n]
      invariant forall n :: n in confidence <==> n in item.confidence && (n !in item.upstreams || n in marked || n in todo)
      invariant forall n | n in confidence :: confidence[n] == item.confidence[n]
      decreases todo
    {
      var n :| n in todo;
      if n !in marked {
        upstreams := upstreams - {n};
        confidence := confidence - {n};
      }
      todo := todo - {n};
    }
    pruned := Item(item.current, upstreams, confidence);
    PrunedPointwise(item, marked, upstreams, confidence);
    var allSame := forall n | n in upstreams :: upstreams[n] == SAME;
    keep := !(|upstreams| == 0 || allSame);
  }

  lemma PrunedPointwise(item: Item, marked: set<string>, upstreams: map<string, Value>, confidence: map<string, bool>)
    requires forall n :: n in upstreams <==> n in item.upstreams && n in marked
    requires forall n | n in upstreams :: upstreams[n] == item.upstreams[n]
    requires forall n :: n in confidence <==> n in item.confidence && (n !in item.upstreams || n in marked)
    requires forall n | n in confidence :: confidence[n] == item.confidence[n]
    ensures Item(item.current, upstreams, confidence) == PrunedItem(item, marked)
    ensures Keeps(item, marked) <==> !(|upstreams| == 0 || forall n | n in upstreams :: upstreams[n] == SAME)
  {
    assert upstreams == PrunedItem(item, marked).upstreams;
    assert confidence == PrunedItem(item, marked).confidence;
    if Keeps(item, marked) {
      var n :| n in item.upstreams && n in marked && item.upstreams[n] != SAME;
      assert n in upstreams;
    }
  }

  method PruneRow(row: Row, marked: set<string>) returns (pruned: Row)
    ensures pruned == PrunedRow(row, marked)
  {
    pruned := row;
    var todo := row.Keys;
    while todo != {}
      invariant todo <= row.Keys
      invariant forall f :: f in pruned <==> f in row && (f in todo || Keeps(row[f], marked))
      invariant forall f | f in pruned :: pruned[f] == if f in todo then row[f] else PrunedItem(row[f], marked)
      decreases todo
    {
      var f :| f in todo;
      var item, keep := PruneItem(pruned[f], marked);
      pruned := if keep then pruned[f := item] else pruned - {f};
      todo := todo - {f};
    }
  }

  method Prune(raw: Report, marked: set<string>) returns (d: Report)
    ensures d == Pruned(raw, marked)
  {
    d := raw;
    var todo := raw.Keys;
    while todo != {}
      invariant todo <= raw.Keys
      invariant forall m :: m in d <==> m in raw && (m in todo || PrunedRow(raw[m], marked) != map[])
      invariant forall m | m in d :: d[m] == if m in todo then raw[m] else PrunedRow(raw[m], marked)
      decreases todo
    {
      var m :| m in todo;
      var row := PruneRow(d[m], marked);
      d := if |row| == 0 then d - {m} else d[m := row];
      todo := todo - {m};
    }
  }

  // ---- The whole builder ----

  ghost predicate ModelsAre(models: set<string>, local: Prices, chs: seq<Channel>) {
    forall m :: m in models <==> Mentions(local, m) || exists i :: 0 <= i < |chs| && Mentions(chs[i].data, m)
  }

  lemma {:induction false} RaisedBySome(chs: seq<Channel>, n: nat, p: Channel -> bool)
    requires n <= |chs|
    ensures RaisedBy(chs, n, p) <==> exists i :: 0 <= i < n && p(chs[i])
  {
    if n > 0 { RaisedBySome(chs, n - 1, p); }
  }

  /** An entry exists exactly when some channel's price differs or the local one is missing. */
  lemma IncludedSpec(local: Prices, chs: seq<Channel>, f: Field, m: string)
    requires Legible(chs)
    ensures Included(local, chs, f, m) <==> HasEntry(local, chs, f, m)
  {
    var p := if Local(local, f, m) != Nil then Deviates(local, f, m) else Priced(f, m);
    RaisedBySome(chs, |chs|, p);
    forall i | 0 <= i < |chs| ensures p(chs[i]) == Differs(local, chs[i], f, m) { CellSpec(local, chs[i], f, m); }
  }

  lemma ConfidentIsTrusted(chs: seq<Channel>, models: set<string>, m: string, i: nat)
    requires Distinct(chs) && m in models && i < |chs|
    ensures Confident(Entered(chs, |chs|, TrustTable(models)), m)(chs[i]) == Trust(m)(chs[i])
  {
    EnteredSpec(chs, |chs|, TrustTable(models));
  }

  lemma RawItemSpec(local: Prices, chs: seq<Channel>, models: set<string>, f: Field, m: string)
    requires Distinct(chs) && Legible(chs) && m in models
    ensures ItemIs(RawItem(local, chs, Entered(chs, |chs|, TrustTable(models)), f, m), local, chs, f, m, Names(chs))
  {
    var conf := Entered(chs, |chs|, TrustTable(models));
    EnteredSpec(chs, |chs|, Cells(local, f, m));
    EnteredSpec(chs, |chs|, Confident(conf, m));
    forall i | 0 <= i < |chs|
      ensures Cells(local, f, m)(chs[i]) == Show(local, f, m)(chs[i]) && Confident(conf, m)(chs[i]) == Trust(m)(chs[i])
    {
      CellSpec(local, chs[i], f, m);
      ConfidentIsTrusted(chs, models, m, i);
    }
  }

  lemma RawRowSpec(local: Prices, chs: seq<Channel>, models: set<string>, m: string)
    requires Distinct(chs) && Legible(chs) && m in models
    ensures RowIs(RawRow(local, chs, Entered(chs, |chs|, TrustTable(models)), m), local, chs, m, Names(chs))
  {
    var row := RawRow(local, chs, Entered(chs, |chs|, TrustTable(models)), m);
    forall f ensures f in row <==> HasEntry(local, chs, f, m) { IncludedSpec(local, chs, f, m); }
    forall f | f in row ensures ItemIs(row[f], local, chs, f, m, Names(chs)) { RawItemSpec(local, chs, models, f, m); }
  }

  lemma EntryIsMentioned(local: Prices, chs: seq<Channel>, m: string)
    requires InReport(local, chs, m)
    ensures exists i :: 0 <= i < |chs| && Mentions(chs[i].data, m)
  {
    var f :| HasEntry(local, chs, f, m);
    var i :| 0 <= i < |chs| && Differs(local, chs[i], f, m);
    assert Mentions(chs[i].data, m);
  }

  lemma RowEmptiness(row: Row, local: Prices, chs: seq<Channel>, m: string, names: set<string>)
    requires RowIs(row, local, chs, m, names)
    ensures row == map[] <==> !InReport(local, chs, m)
  {
    if row != map[] {
      var f :| f in row;
      assert HasEntry(local, chs, f, m);
    } else {
      assert forall f :: f !in row;
    }
  }

  /** Before pruning, the report has the right entries and lists every channel. */
  lemma RawSpec(raw: Report, local: Prices, chs: seq<Channel>, models: set<string>)
    requires Distinct(chs) && Legible(chs) && ModelsAre(models, local, chs) && RawIs(raw, local, chs, models)
    ensures ReportIs(raw, local, chs, Names(chs))
  {
    forall m ensures m in raw <==> InReport(local, chs, m) {
      if InReport(local, chs, m) { EntryIsMentioned(local, chs, m); }
      if m in models {
        RawRowSpec(local, chs, models, m);
        RowEmptiness(RawRow(local, chs, Entered(chs, |chs|, TrustTable(models)), m), local, chs, m, Names(chs));
      }
    }
    forall m | m in raw ensures RowIs(raw[m], local, chs, m, Names(chs)) { RawRowSpec(local, chs, models, m); }
  }

  lemma DifferingIsMarked(raw: Report, local: Prices, chs: seq<Channel>, n: string)
    requires Legible(chs) && ReportIs(raw, local, chs, Names(chs)) && n in Differing(local, chs)
    ensures exists m :: m in raw && RowMarksName(raw[m], n)
  {
    var i :| 0 <= i < |chs| && DiffersSomewhere(local, chs[i]) && chs[i].name == n;
    var f, m :| Differs(local, chs[i], f, m);
    assert HasEntry(local, chs, f, m) && InReport(local, chs, m);
    assert RowIs(raw[m], local, chs, m, Names(chs));
    assert ItemIs(raw[m][f], local, chs, f, m, Names(chs));
    assert n in Names(chs) && raw[m][f].upstreams[n] == Show(local, f, m)(chs[i]);
    assert Marks(raw[m][f], n);
  }

  lemma MarkedIsDiffering(raw: Report, local: Prices, chs: seq<Channel>, n: string, m: string)
    requires ReportIs(raw, local, chs, Names(chs)) && m in raw && RowMarksName(raw[m], n)
    ensures n in Differing(local, chs)
  {
    assert RowIs(raw[m], local, chs, m, Names(chs));
    var f :| f in raw[m] && Marks(raw[m][f], n);
    assert ItemIs(raw[m][f], local, chs, f, m, Names(chs));
    var i :| 0 <= i < |chs| && chs[i].name == n;
    assert raw[m][f].upstreams[n] == Show(local, f, m)(chs[i]);
    assert Differs(local, chs[i], f, m) && DiffersSomewhere(local, chs[i]);
  }

  /** An entry names a channel that differs there, so pruning keeps it. */
  lemma EntryIsKept(item: Item, marked: set<string>, local: Prices, chs: seq<Channel>, f: Field, m: string)
    requires Legible(chs) && HasEntry(local, chs, f, m) && ItemIs(item, local, chs, f, m, Names(chs))
    requires marked == Differing(local, chs)
    ensures Keeps(item, marked)
  {
    var i :| 0 <= i < |chs| && Differs(local, chs[i], f, m);
    assert DiffersSomewhere(local, chs[i]) && chs[i].name in marked && chs[i].name in Names(chs);
    assert item.upstreams[chs[i].name] == Show(local, f, m)(chs[i]);
  }

  lemma EntryIsNarrowed(item: Item, marked: set<string>, chs: seq<Channel>, show: Channel -> Value, trust: Channel -> bool)
    requires Lists(item, chs, Names(chs), show, trust) && marked <= Names(chs)
    ensures Lists(PrunedItem(item, marked), chs, marked, show, trust)
  {
    var pruned := PrunedItem(item, marked);
    assert pruned.upstreams.Keys == marked;
    assert pruned.confidence.Keys == marked;
  }

  lemma PrunedRowFull(row: Row, marked: set<string>)
    requires forall f | f in row :: Keeps(row[f], marked)
    ensures PrunedRow(row, marked).Keys == row.Keys
    ensures forall f | f in row :: PrunedRow(row, marked)[f] == PrunedItem(row[f], marked)
  {}

  lemma RowFrom(row: Row, pruned: Row, local: Prices, chs: seq<Channel>, m: string, marked: set<string>)
    requires RowIs(row, local, chs, m, Names(chs)) && pruned.Keys == row.Keys
    requires forall f | f in row :: ItemIs(pruned[f], local, chs, f, m, marked)
    ensures RowIs(pruned, local, chs, m, marked)
  {
    forall f ensures f in pruned <==> HasEntry(local, chs, f, m) { assert f in pruned <==> f in row; }
  }

  lemma RowIsKept(row: Row, marked: set<string>, local: Prices, chs: seq<Channel>, m: string)
    requires Legible(chs) && RowIs(row, local, chs, m, Names(chs)) && marked == Differing(local, chs)
    ensures PrunedRow(row, marked).Keys == row.Keys && RowIs(PrunedRow(row, marked), local, chs, m, marked)
  {
    forall f | f in row ensures Keeps(row[f], marked) { EntryIsKept(row[f], marked, local, chs, f, m); }
    PrunedRowFull(row, marked);
    assert marked <= Names(chs);
    forall f | f in row ensures ItemIs(PrunedRow(row, marked)[f], local, chs, f, m, marked) {
      EntryIsNarrowed(row[f], marked, chs, Show(local, f, m), Trust(m));
    }
    RowFrom(row, PrunedRow(row, marked), local, chs, m, marked);
  }

  lemma PrunedFull(raw: Report, marked: set<string>)
    requires forall m | m in raw :: PrunedRow(raw[m], marked) != map[]
    ensures Pruned(raw, marked).Keys == raw.Keys
    ensures forall m | m in raw :: Pruned(raw, marked)[m] == PrunedRow(raw[m], marked)
  {}

  lemma ReportFrom(raw: Report, d: Report, local: Prices, chs: seq<Channel>, marked: set<string>)
    requires ReportIs(raw, local, chs, Names(chs)) && d.Keys == raw.Keys
    requires forall m | m in raw :: RowIs(d[m], local, chs, m, marked)
    ensures ReportIs(d, local, chs, marked)
  {
    forall m ensures m in d <==> InReport(local, chs, m) { assert m in d <==> m in raw; }
  }

  /** Pruning keeps every entry and narrows each to the channels that differ somewhere. */
  lemma PruningDropsNoEntry(raw: Report, marked: set<string>, local: Prices, chs: seq<Channel>)
    requires Legible(chs) && ReportIs(raw, local, chs, Names(chs)) && marked == Differing(local, chs)
    ensures Pruned(raw, marked).Keys == raw.Keys
    ensures forall m | m in raw :: Pruned(raw, marked)[m].Keys == raw[m].Keys
    ensures ReportIs(Pruned(raw, marked), local, chs, marked)
  {
    forall m | m in raw
      ensures PrunedRow(raw[m], marked) != map[] && PrunedRow(raw[m], marked).Keys == raw[m].Keys
      ensures RowIs(PrunedRow(raw[m], marked), local, chs, m, marked)
    {
      RowIsKept(raw[m], marked, local, chs, m);
      RowEmptiness(PrunedRow(raw[m], marked), local, chs, m, marked);
    }
    PrunedFull(raw, marked);
    ReportFrom(raw, Pruned(raw, marked), local, chs, marked);
  }

  ghost predicate MarkedAre(marked: set<string>, raw: Report) {
    forall n :: n in marked <==> exists m :: m in raw && RowMarksName(raw[m], n)
  }

  /** What the passes compute, on any input. */
  ghost predicate Built(d: Report, local: Prices, chs: seq<Channel>) {
    exists models, raw, marked ::
      ModelsAre(models, local, chs) && RawIs(raw, local, chs, models) && MarkedAre(marked, raw) && d == Pruned(raw, marked)
  }

  method BuildDifferences(local: Prices, chs: seq<Channel>) returns (d: Report)
    ensures Built(d, local, chs)
    ensures Distinct(chs) && Legible(chs) ==> ReportIs(d, local, chs, Differing(local, chs))
  {
    var models := AllModels(local, chs);
    var raw := BuildRaw(local, chs, models);
    var marked := MarkedChannels(raw);
    d := Prune(raw, marked);
    assert ModelsAre(models, local, chs) && MarkedAre(marked, raw);
    if Distinct(chs) && Legible(chs) { BuiltMeetsSpec(d, local, chs, models, raw, marked); }
  }

  /** With distinct channel names and legible prices, the passes compute the declarative report. */
  lemma BuiltMeetsSpec(d: Report, local: Prices, chs: seq<Channel>, models: set<string>, raw: Report, marked: set<string>)
    requires Distinct(chs) && Legible(chs)
    requires ModelsAre(models, local, chs) && RawIs(raw, local, chs, models) && MarkedAre(marked, raw) && d == Pruned(raw, marked)
    ensures ReportIs(d, local, chs, Differing(local, chs))
    ensures d.Keys == raw.Keys && forall m | m in raw :: d[m].Keys == raw[m].Keys
  {
    RawSpec(raw, local, chs, models);
    forall n ensures n in marked <==> n in Differing(local, chs) {
      if n in Differing(local, chs) { DifferingIsMarked(raw, local, chs, n); }
      if m :| m in raw && RowMarksName(raw[m], n) { MarkedIsDiffering(raw, local, chs, n, m); }
    }
    assert marked == Differing(local, chs);
    PruningDropsNoEntry(raw, marked, local, chs);
  }

  /** Near equality is not transitive, so two channels can both count as "same" as the local
      price and yet differ from each other. */
  lemma NearlyEqualNotTransitive(a: real)
    ensures var b, c := a + EPSILON * 0.6, a + EPSILON * 1.2;
            NearlyEqual(a, b) && NearlyEqual(b, c) && !NearlyEqual(a, c)
  {}
}
