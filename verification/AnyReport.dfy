/**
The price-difference report for any list of channels: names may repeat, in which case a later channel
overwrites an earlier one, and prices may be null or the text "same".
*/
module AnyReport {
  import opened Base
  import opened Differences

  /** The last of the first `n` channels with this name, or -1. */
  function LastIndex(chs: seq<Channel>, n: nat, name: string): (i: int)
    requires n <= |chs|
    ensures -1 <= i < n && (i >= 0 ==> chs[i].name == name)
    ensures i == -1 ==> forall j | 0 <= j < n :: chs[j].name != name
  {
    if n == 0 then -1 else if chs[n - 1].name == name then n - 1 else LastIndex(chs, n - 1, name)
  }

  predicate Named(chs: seq<Channel>, name: string) {
    LastIndex(chs, |chs|, name) >= 0
  }

  function Last(chs: seq<Channel>, name: string): Channel
    requires Named(chs, name)
  {
    chs[LastIndex(chs, |chs|, name)]
  }

  lemma {:induction false} EnteredLast<V>(chs: seq<Channel>, n: nat, g: Channel -> V, name: string)
    requires n <= |chs|
    ensures name in Entered(chs, n, g) <==> LastIndex(chs, n, name) >= 0
    ensures name in Entered(chs, n, g) ==> Entered(chs, n, g)[name] == g(chs[LastIndex(chs, n, name)])
  {
    if n > 0 { EnteredLast(chs, n - 1, g, name); }
  }

  /** Some channel, the overwritten ones included, has a price that the branches count. */
  ghost predicate Wanted(local: Prices, chs: seq<Channel>, f: Field, m: string) {
    exists i :: 0 <= i < |chs| && (if Local(local, f, m) != Nil then Deviates(local, f, m) else Priced(f, m))(chs[i])
  }

  /** The value of a name: that of its last channel. */
  function LastCell(local: Prices, chs: seq<Channel>, name: string, f: Field, m: string): Value
    requires Named(chs, name)
  {
    Cells(local, f, m)(Last(chs, name))
  }

  /** The name is listed: its last channel has a value of its own in some entry. */
  ghost predicate Listed(local: Prices, chs: seq<Channel>, name: string) {
    Named(chs, name) && exists f, m :: Wanted(local, chs, f, m) && LastCell(local, chs, name, f, m) != Nil && LastCell(local, chs, name, f, m) != SAME
  }

  /** The entry survives pruning: a listed name has something other than "same" in it. */
  ghost predicate Survives(local: Prices, chs: seq<Channel>, f: Field, m: string) {
    Wanted(local, chs, f, m) && exists n :: Listed(local, chs, n) && LastCell(local, chs, n, f, m) != SAME
  }

  ghost predicate GeneralItem(item: Item, local: Prices, chs: seq<Channel>, f: Field, m: string) {
    && item.current == Local(local, f, m)
    && (forall n :: n in item.upstreams <==> Listed(local, chs, n)) && (forall n :: n in item.confidence <==> Listed(local, chs, n))
    && (forall n | n in item.upstreams :: item.upstreams[n] == LastCell(local, chs, n, f, m))
    && (forall n | n in item.confidence :: item.confidence[n] == Trusted(Last(chs, n), m))
  }

  /** The report for any list of channels, repeated names and illegible prices included. */
  ghost predicate GeneralReport(d: Report, local: Prices, chs: seq<Channel>) {
    && (forall m :: m in d <==> exists f :: Survives(local, chs, f, m))
    && (forall m, f | m in d :: f in d[m] <==> Survives(local, chs, f, m))
    && (forall m, f | m in d && f in d[m] :: GeneralItem(d[m][f], local, chs, f, m))
  }

  lemma IncludedIff(local: Prices, chs: seq<Channel>, f: Field, m: string)
    ensures Included(local, chs, f, m) <==> Wanted(local, chs, f, m)
  {
    RaisedBySome(chs, |chs|, if Local(local, f, m) != Nil then Deviates(local, f, m) else Priced(f, m));
  }

  lemma WantedIsMentioned(local: Prices, chs: seq<Channel>, models: set<string>, f: Field, m: string)
    requires ModelsAre(models, local, chs) && Wanted(local, chs, f, m)
    ensures m in models
  {
    var i :| 0 <= i < |chs| && (if Local(local, f, m) != Nil then Deviates(local, f, m) else Priced(f, m))(chs[i]);
    assert Priced(f, m)(chs[i]) && Mentions(chs[i].data, m);
  }

  ghost predicate Has(raw: Report, m: string, f: Field) {
    m in raw && f in raw[m]
  }

  lemma RawHas(raw: Report, local: Prices, chs: seq<Channel>, models: set<string>, f: Field, m: string)
    requires ModelsAre(models, local, chs) && RawIs(raw, local, chs, models)
    ensures Has(raw, m, f) <==> Wanted(local, chs, f, m)
    ensures Has(raw, m, f) ==> m in models && raw[m][f] == RawItem(local, chs, Entered(chs, |chs|, TrustTable(models)), f, m)
  {
    IncludedIff(local, chs, f, m);
    if Wanted(local, chs, f, m) {
      WantedIsMentioned(local, chs, models, f, m);
      assert f in RawRow(local, chs, Entered(chs, |chs|, TrustTable(models)), m);
    }
  }

  lemma RawItemAt(local: Prices, chs: seq<Channel>, models: set<string>, f: Field, m: string, n: string)
    requires m in models
    ensures var item := RawItem(local, chs, Entered(chs, |chs|, TrustTable(models)), f, m);
            && (n in item.upstreams <==> Named(chs, n)) && (n in item.confidence <==> Named(chs, n))
            && (Named(chs, n) ==> item.upstreams[n] == LastCell(local, chs, n, f, m) && item.confidence[n] == Trusted(Last(chs, n), m))
  {
    var conf := Entered(chs, |chs|, TrustTable(models));
    EnteredLast(chs, |chs|, Cells(local, f, m), n);
    EnteredLast(chs, |chs|, Confident(conf, m), n);
    EnteredLast(chs, |chs|, TrustTable(models), n);
  }

  lemma MarkedIsListed(raw: Report, local: Prices, chs: seq<Channel>, models: set<string>, marked: set<string>, n: string)
    requires ModelsAre(models, local, chs) && RawIs(raw, local, chs, models) && MarkedAre(marked, raw)
    ensures n in marked <==> Listed(local, chs, n)
  {
    if n in marked {
      var m :| m in raw && RowMarksName(raw[m], n);
      var f :| f in raw[m] && Marks(raw[m][f], n);
      assert Has(raw, m, f);
      RawHas(raw, local, chs, models, f, m);
      RawItemAt(local, chs, models, f, m, n);
    }
    if Listed(local, chs, n) {
      var f, m :| Wanted(local, chs, f, m) && LastCell(local, chs, n, f, m) != Nil && LastCell(local, chs, n, f, m) != SAME;
      RawHas(raw, local, chs, models, f, m);
      RawItemAt(local, chs, models, f, m, n);
      assert Marks(raw[m][f], n);
    }
  }

  ghost predicate IsListing(marked: set<string>, local: Prices, chs: seq<Channel>) {
    forall n :: n in marked <==> Listed(local, chs, n)
  }

  lemma KeptItem(local: Prices, chs: seq<Channel>, models: set<string>, marked: set<string>, f: Field, m: string)
    requires m in models && IsListing(marked, local, chs)
    ensures var item := RawItem(local, chs, Entered(chs, |chs|, TrustTable(models)), f, m);
            && (Keeps(item, marked) <==> exists n :: Listed(local, chs, n) && LastCell(local, chs, n, f, m) != SAME)
            && GeneralItem(PrunedItem(item, marked), local, chs, f, m)
  {
    var item := RawItem(local, chs, Entered(chs, |chs|, TrustTable(models)), f, m);
    forall n ensures (n in item.upstreams <==> Named(chs, n)) && (n in item.confidence <==> Named(chs, n))
             ensures Named(chs, n) ==> item.upstreams[n] == LastCell(local, chs, n, f, m) && item.confidence[n] == Trusted(Last(chs, n), m)
    {
      RawItemAt(local, chs, models, f, m, n);
    }
  }

  /** What is to be shown of an entry, and that pruning does it. */
  ghost predicate EntryIs(raw: Report, marked: set<string>, local: Prices, chs: seq<Channel>, m: string, f: Field) {
    && (KeepsEntry(raw, marked, m, f) <==> Survives(local, chs, f, m))
    && (KeepsEntry(raw, marked, m, f) ==> GeneralItem(PrunedItem(raw[m][f], marked), local, chs, f, m))
  }

  ghost predicate KeepsEntry(raw: Report, marked: set<string>, m: string, f: Field) {
    Has(raw, m, f) && Keeps(raw[m][f], marked)
  }

  lemma KeptEntry(raw: Report, local: Prices, chs: seq<Channel>, models: set<string>, marked: set<string>, f: Field, m: string)
    requires ModelsAre(models, local, chs) && RawIs(raw, local, chs, models) && IsListing(marked, local, chs)
    ensures EntryIs(raw, marked, local, chs, m, f)
  {
    RawHas(raw, local, chs, models, f, m);
    if Has(raw, m, f) { KeptItem(local, chs, models, marked, f, m); }
  }

  /** The pruned report, entry by entry. */
  ghost predicate IsPruned(d: Report, raw: Report, marked: set<string>) {
    && (forall m :: m in d <==> exists f :: KeepsEntry(raw, marked, m, f))
    && (forall m, f | m in d :: f in d[m] <==> KeepsEntry(raw, marked, m, f))
    && (forall m, f | m in d && f in d[m] :: d[m][f] == PrunedItem(raw[m][f], marked))
  }

  lemma RowKeepsSome(row: Row, marked: set<string>)
    ensures PrunedRow(row, marked) != map[] <==> exists f :: f in row && Keeps(row[f], marked)
  {
    var pruned := PrunedRow(row, marked);
    if pruned != map[] {
      var f :| f in pruned;
      assert f in row && Keeps(row[f], marked);
    }
    if f :| f in row && Keeps(row[f], marked) { assert f in pruned; }
  }

  lemma ModelKept(raw: Report, marked: set<string>, m: string)
    ensures m in Pruned(raw, marked) <==> exists f :: KeepsEntry(raw, marked, m, f)
  {
    if m in raw {
      RowKeepsSome(raw[m], marked);
      if f :| f in raw[m] && Keeps(raw[m][f], marked) { assert KeepsEntry(raw, marked, m, f); }
    }
  }

  lemma PrunedIsPruned(raw: Report, marked: set<string>)
    ensures IsPruned(Pruned(raw, marked), raw, marked)
  {
    forall m ensures m in Pruned(raw, marked) <==> exists f :: KeepsEntry(raw, marked, m, f) { ModelKept(raw, marked, m); }
  }

  lemma ModelsOfReport(d: Report, raw: Report, marked: set<string>, local: Prices, chs: seq<Channel>, m: string)
    requires IsPruned(d, raw, marked) && forall f :: EntryIs(raw, marked, local, chs, m, f)
    ensures m in d <==> exists f :: Survives(local, chs, f, m)
  {
    if m in d {
      var f :| KeepsEntry(raw, marked, m, f);
      assert EntryIs(raw, marked, local, chs, m, f);
    }
    if f :| Survives(local, chs, f, m) {
      assert EntryIs(raw, marked, local, chs, m, f);
      assert KeepsEntry(raw, marked, m, f);
    }
  }

  lemma FieldOfReport(d: Report, raw: Report, marked: set<string>, local: Prices, chs: seq<Channel>, m: string, f: Field)
    requires IsPruned(d, raw, marked) && EntryIs(raw, marked, local, chs, m, f) && m in d
    ensures f in d[m] <==> Survives(local, chs, f, m)
    ensures f in d[m] ==> GeneralItem(d[m][f], local, chs, f, m)
  {
    assert f in d[m] <==> KeepsEntry(raw, marked, m, f);
  }

  /** What the passes build, without any hypothesis on names or prices. */
  lemma BuiltIsGeneral(d: Report, local: Prices, chs: seq<Channel>)
    requires Built(d, local, chs)
    ensures GeneralReport(d, local, chs)
  {
    var models, raw, marked :|
      ModelsAre(models, local, chs) && RawIs(raw, local, chs, models) && MarkedAre(marked, raw) && d == Pruned(raw, marked);
    forall n ensures n in marked <==> Listed(local, chs, n) { MarkedIsListed(raw, local, chs, models, marked, n); }
    forall m, f ensures EntryIs(raw, marked, local, chs, m, f) { KeptEntry(raw, local, chs, models, marked, f, m); }
    PrunedIsPruned(raw, marked);
    GeneralFrom(d, raw, marked, local, chs);
  }

  lemma GeneralFrom(d: Report, raw: Report, marked: set<string>, local: Prices, chs: seq<Channel>)
    requires IsPruned(d, raw, marked) && forall m, f :: EntryIs(raw, marked, local, chs, m, f)
    ensures GeneralReport(d, local, chs)
  {
    forall m ensures m in d <==> exists f :: Survives(local, chs, f, m) { ModelsOfReport(d, raw, marked, local, chs, m); }
    forall m, f | m in d
      ensures f in d[m] <==> Survives(local, chs, f, m)
      ensures f in d[m] ==> GeneralItem(d[m][f], local, chs, f, m)
    {
      FieldOfReport(d, raw, marked, local, chs, m, f);
    }
  }

  /** Overwritten channels are not shown: if the last channel of every name agrees with the local
      prices, the report is empty, whatever the earlier channels of those names say. */
  lemma OverwrittenDifferencesAreHidden(d: Report, local: Prices, chs: seq<Channel>)
    requires Built(d, local, chs)
    requires forall n | Named(chs, n) :: Legible([Last(chs, n)]) && !DiffersSomewhere(local, Last(chs, n))
    ensures d == map[]
  {
    BuiltIsGeneral(d, local, chs);
    forall n ensures !Listed(local, chs, n) {
      if Named(chs, n) {
        forall f, m ensures LastCell(local, chs, n, f, m) == Nil || LastCell(local, chs, n, f, m) == SAME {
          assert [Last(chs, n)][0] == Last(chs, n) && !Differs(local, Last(chs, n), f, m);
          CellSpec(local, Last(chs, n), f, m);
        }
      }
    }
    assert forall m, f :: !Survives(local, chs, f, m);
  }
}
