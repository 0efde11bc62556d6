/**
Which prices count as different, and which answers as doubtful, told from the raw values in the
tables; and what the report then shows.
*/
module PriceRules {
  import opened Base
  import opened Differences

  /** The raw value a table holds, before any conversion. */
  predicate Holds(p: Prices, f: Field, m: string, v: Value) {
    f in p && m in p[f] && p[f][m] == v
  }

  /** The value is the number `r`, as a float or as an integer. */
  predicate IsNumber(v: Value, r: real) {
    v == Num(r) || (v.Int? && v.i as real == r)
  }

  predicate IsBilling(f: Field) {
    f == BillingMode || f == BillingExpr
  }

  /** At least 1e-9 apart. */
  predicate Far(a: real, b: real) {
    a - b >= 0.000000001 || b - a >= 0.000000001
  }

  /** What the comparison makes of a raw value: numbers become floats, but not in the billing fields. */
  lemma PriceOf(p: Prices, f: Field, m: string, v: Value)
    requires Holds(p, f, m, v)
    ensures Price(p, f, m) == Some(if v.Int? && !IsBilling(f) then Num(v.i as real) else v)
    ensures forall r | IsNumber(v, r) && !IsBilling(f) :: Price(p, f, m) == Some(Num(r))
  {}

  // ---- When a channel differs ----

  /** In a numeric field two numbers differ when they are at least 1e-9 apart, integers or not. */
  lemma NumbersDiffer(local: Prices, ch: Channel, f: Field, m: string, l: Value, v: Value, a: real, b: real)
    requires Holds(local, f, m, l) && Holds(ch.data, f, m, v) && IsNumber(l, a) && IsNumber(v, b) && !IsBilling(f)
    ensures Differs(local, ch, f, m) <==> Far(a, b)
  {}

  /** Texts and flags differ when they are unequal, and from every number. */
  lemma TextsDiffer(local: Prices, ch: Channel, f: Field, m: string, l: Value, v: Value)
    requires Holds(local, f, m, l) && Holds(ch.data, f, m, v) && (v.Text? || v.Flag?)
    ensures Differs(local, ch, f, m) <==> l != v
  {}

  lemma NumberIsNoText(local: Prices, ch: Channel, f: Field, m: string, l: Value, v: Value)
    requires Holds(local, f, m, l) && Holds(ch.data, f, m, v) && (v.Num? || v.Int?) && (l.Text? || l.Flag?)
    ensures Differs(local, ch, f, m)
  {}

  /** In the billing fields nothing is converted: an integer differs from every float and from every
      other integer, and floats by 1e-9. */
  lemma BillingDiffers(local: Prices, ch: Channel, f: Field, m: string, l: Value, v: Value)
    requires Holds(local, f, m, l) && Holds(ch.data, f, m, v) && IsBilling(f) && l != Nil
    ensures Differs(local, ch, f, m) <==> if l.Num? && v.Num? then Far(l.r, v.r) else l != v
  {}

  /** Where the local table has no value, or null, every price of a channel differs; a channel
      without a price never does. */
  lemma MissingDiffers(local: Prices, ch: Channel, f: Field, m: string)
    ensures (f !in local || m !in local[f] || local[f][m] == Nil) ==>
              (Differs(local, ch, f, m) <==> f in ch.data && m in ch.data[f])
    ensures (f !in ch.data || m !in ch.data[f]) ==> !Differs(local, ch, f, m)
  {}

  /** An answer is doubtful for a model exactly when its ratio is within 1e-9 of 37.5 and its
      completion ratio within 1e-9 of 1. */
  lemma DoubtfulAnswer(ch: Channel, m: string)
    ensures !Trusted(ch, m) <==>
            exists v, w, a, b :: Holds(ch.data, ModelRatio, m, v) && Holds(ch.data, CompletionRatio, m, w)
                                 && IsNumber(v, a) && IsNumber(w, b) && !Far(a, 37.5) && !Far(b, 1.0)
  {
    if !Trusted(ch, m) {
      var v, w := ch.data[ModelRatio][m], ch.data[CompletionRatio][m];
      assert IsNumber(v, AsFloat(v).value) && IsNumber(w, AsFloat(w).value);
      assert Holds(ch.data, ModelRatio, m, v) && Holds(ch.data, CompletionRatio, m, w);
    }
  }

  // ---- What the report shows ----

  lemma BuiltReport(d: Report, local: Prices, chs: seq<Channel>)
    requires Built(d, local, chs) && Distinct(chs) && Legible(chs)
    ensures ReportIs(d, local, chs, Differing(local, chs))
  {
    var models, raw, marked :|
      ModelsAre(models, local, chs) && RawIs(raw, local, chs, models) && MarkedAre(marked, raw) && d == Pruned(raw, marked);
    BuiltMeetsSpec(d, local, chs, models, raw, marked);
  }

  ghost predicate HasValue(d: Report, m: string, f: Field, name: string, v: Value) {
    m in d && f in d[m] && name in d[m][f].upstreams && d[m][f].upstreams[name] == v
  }

  lemma ShownIfDiffers(d: Report, local: Prices, chs: seq<Channel>, i: nat, f: Field, m: string)
    requires Built(d, local, chs) && Distinct(chs) && Legible(chs) && i < |chs| && Differs(local, chs[i], f, m)
    ensures m in d && f in d[m] && d[m][f].current == Local(local, f, m)
    ensures HasValue(d, m, f, chs[i].name, Price(chs[i].data, f, m).value)
    ensures chs[i].name in d[m][f].confidence && d[m][f].confidence[chs[i].name] == Trusted(chs[i], m)
  {
    BuiltReport(d, local, chs);
    assert HasEntry(local, chs, f, m) && InReport(local, chs, m) && DiffersSomewhere(local, chs[i]);
    assert RowIs(d[m], local, chs, m, Differing(local, chs));
    assert ItemIs(d[m][f], local, chs, f, m, Differing(local, chs));
    assert chs[i].name in Differing(local, chs);
    assert d[m][f].upstreams[chs[i].name] == Show(local, f, m)(chs[i]);
    assert d[m][f].confidence[chs[i].name] == Trust(m)(chs[i]);
  }

  lemma SameIfNot(d: Report, local: Prices, chs: seq<Channel>, i: nat, f: Field, m: string)
    requires Built(d, local, chs) && Distinct(chs) && Legible(chs) && i < |chs| && !Differs(local, chs[i], f, m)
    requires m in d && f in d[m] && chs[i].name in d[m][f].upstreams && Price(chs[i].data, f, m).Some?
    ensures d[m][f].upstreams[chs[i].name] == Text("same")
  {
    BuiltReport(d, local, chs);
    assert RowIs(d[m], local, chs, m, Differing(local, chs));
    assert ItemIs(d[m][f], local, chs, f, m, Differing(local, chs));
    assert d[m][f].upstreams[chs[i].name] == Show(local, f, m)(chs[i]);
  }

  /** Two numbers in a numeric field: the channel's is reported beside the local one exactly when
      they are at least 1e-9 apart; closer, it shows as "same" if the entry is there at all. */
  lemma NumbersReported(d: Report, local: Prices, chs: seq<Channel>, i: nat, f: Field, m: string, l: Value, v: Value, a: real, b: real)
    requires Built(d, local, chs) && Distinct(chs) && Legible(chs) && i < |chs| && !IsBilling(f)
    requires Holds(local, f, m, l) && Holds(chs[i].data, f, m, v) && IsNumber(l, a) && IsNumber(v, b)
    ensures Far(a, b) ==> HasValue(d, m, f, chs[i].name, Num(b)) && d[m][f].current == Num(a)
    ensures !Far(a, b) && m in d && f in d[m] && chs[i].name in d[m][f].upstreams ==> d[m][f].upstreams[chs[i].name] == Text("same")
  {
    NumbersDiffer(local, chs[i], f, m, l, v, a, b);
    PriceOf(local, f, m, l);
    PriceOf(chs[i].data, f, m, v);
    if Far(a, b) {
      ShownIfDiffers(d, local, chs, i, f, m);
    } else if m in d && f in d[m] && chs[i].name in d[m][f].upstreams {
      SameIfNot(d, local, chs, i, f, m);
    }
  }

  /** A text or a flag is reported as it is, exactly when the local value is another. */
  lemma TextsReported(d: Report, local: Prices, chs: seq<Channel>, i: nat, f: Field, m: string, l: Value, v: Value)
    requires Built(d, local, chs) && Distinct(chs) && Legible(chs) && i < |chs|
    requires Holds(local, f, m, l) && Holds(chs[i].data, f, m, v) && (v.Text? || v.Flag?)
    ensures l != v ==> HasValue(d, m, f, chs[i].name, v)
    ensures l == v && m in d && f in d[m] && chs[i].name in d[m][f].upstreams ==> d[m][f].upstreams[chs[i].name] == Text("same")
  {
    TextsDiffer(local, chs[i], f, m, l, v);
    PriceOf(chs[i].data, f, m, v);
    if l != v {
      ShownIfDiffers(d, local, chs, i, f, m);
    } else if m in d && f in d[m] && chs[i].name in d[m][f].upstreams {
      SameIfNot(d, local, chs, i, f, m);
    }
  }

  /** A price for a model the local table does not know is reported against nothing, numbers as floats. */
  lemma NewPriceReported(d: Report, local: Prices, chs: seq<Channel>, i: nat, f: Field, m: string, v: Value)
    requires Built(d, local, chs) && Distinct(chs) && Legible(chs) && i < |chs|
    requires (f !in local || m !in local[f]) && Holds(chs[i].data, f, m, v)
    ensures m in d && f in d[m] && d[m][f].current == Nil
    ensures HasValue(d, m, f, chs[i].name, if v.Int? && !IsBilling(f) then Num(v.i as real) else v)
  {
    MissingDiffers(local, chs[i], f, m);
    PriceOf(chs[i].data, f, m, v);
    ShownIfDiffers(d, local, chs, i, f, m);
  }

  /** An entry is there only for a reason: some channel's price, by the rules above. */
  lemma ReportedForAReason(d: Report, local: Prices, chs: seq<Channel>, f: Field, m: string)
    requires Built(d, local, chs) && Distinct(chs) && Legible(chs) && m in d && f in d[m]
    ensures exists i :: 0 <= i < |chs| && Differs(local, chs[i], f, m)
  {
    BuiltReport(d, local, chs);
    assert RowIs(d[m], local, chs, m, Differing(local, chs));
  }

  /** The confidence shown beside a differing price. */
  lemma ConfidenceReported(d: Report, local: Prices, chs: seq<Channel>, i: nat, f: Field, m: string)
    requires Built(d, local, chs) && Distinct(chs) && Legible(chs) && i < |chs| && Differs(local, chs[i], f, m)
    ensures m in d && f in d[m] && chs[i].name in d[m][f].confidence
    ensures !d[m][f].confidence[chs[i].name] <==>
            exists v, w, a, b :: Holds(chs[i].data, ModelRatio, m, v) && Holds(chs[i].data, CompletionRatio, m, w)
                                 && IsNumber(v, a) && IsNumber(w, b) && !Far(a, 37.5) && !Far(b, 1.0)
  {
    ShownIfDiffers(d, local, chs, i, f, m);
    DoubtfulAnswer(chs[i], m);
  }
}
