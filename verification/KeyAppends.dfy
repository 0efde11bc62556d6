/**
Appending keys to a multi-key channel: what is added, when the keys already there survive it, and
when appending the same keys again changes nothing.
*/
module KeyAppends {
  import opened Base
  import opened Text
  import opened MultiKey
  import opened KeyViews

  /** The keys added are the new ones that are not blank and not known, each once. */
  lemma {:induction false} DedupedSpec(ks: seq<string>, seen: set<string>)
    ensures forall k :: k in Deduped(ks, seen) <==> k != "" && k !in seen && k in Normalized(ks)
    ensures forall i, j :: 0 <= i < j < |Deduped(ks, seen)| ==> Deduped(ks, seen)[i] != Deduped(ks, seen)[j]
  {
    if ks != [] {
      var before, last := ks[..|ks| - 1], TrimSpace(ks[|ks| - 1]);
      DedupedSpec(before, seen);
      assert ks == before + [ks[|ks| - 1]];
      assert Normalized(ks) == Normalized(before) + if last == "" then {} else {last};
    }
  }

  /** Appending adds no duplicate: no added key is blank, equal to another added key or equal to
      an existing one up to surrounding space. */
  lemma NoDuplicateAdded(parse: Parser, c: Channel, r: Request)
    ensures var added := Fresh(parse, c, r);
            && (forall k | k in added :: k != "" && TrimSpace(k) == k && k !in Normalized(ExistingKeys(parse, c.key)))
            && (forall i, j :: 0 <= i < j < |added| ==> added[i] != added[j])
            && Normalized(ExistingKeys(parse, c.key) + added) >= Normalized(NewKeys(r))
  {
    var existing, added := ExistingKeys(parse, c.key), Fresh(parse, c, r);
    DedupedSpec(NewKeys(r), Normalized(existing));
    forall k | k in added ensures TrimSpace(k) == k {
      var j :| j in NewKeys(r) && TrimSpace(j) == k;
      TrimSpaceSpec(j);
    }
    forall k | k in Normalized(NewKeys(r)) ensures k in Normalized(existing + added) {
      if k in Normalized(existing) {
        var e :| e in existing && TrimSpace(e) == k;
        assert e in existing + added;
      } else {
        assert k in added && TrimSpace(k) == k && k in existing + added;
      }
    }
  }

  /** The stored text looks like an array but is not one. */
  predicate BrokenArray(parse: Parser, key: string) {
    Bracketed(key) && Parsed(parse, key).None?
  }

  function AllKeys(parse: Parser, c: Channel, r: Request): seq<string> {
    ExistingKeys(parse, c.key) + Fresh(parse, c, r)
  }

  /** The keys after appending are the old keys, each at its index, and the added ones after
      them, exactly when nothing is written or the old text was no broken array and all keys
      together are stable. */
  lemma AppendKeepsKeysIff(parse: Parser, c: Channel, r: Request)
    requires IsJson(parse) && c.key != ""
    ensures Keys(parse, Done(parse, c, Append(r)).key) == Keys(parse, c.key) + Fresh(parse, c, r) <==>
            Join(AllKeys(parse, c, r), NL) == "" || (!BrokenArray(parse, c.key) && Stable(parse, AllKeys(parse, c, r)))
  {
    var all := AllKeys(parse, c, r);
    assert Done(parse, c, Append(r)).key == if Join(all, NL) != "" then Join(all, NL) else c.key;
    if Join(all, NL) == "" {
      NothingAdded(parse, c, r);
      assert Keys(parse, c.key) + [] == Keys(parse, c.key);
    } else if BrokenArray(parse, c.key) {
      AppendToBrokenArray(parse, c, r);
    } else {
      StableIff(parse, all);
    }
  }

  lemma NothingAdded(parse: Parser, c: Channel, r: Request)
    requires Join(AllKeys(parse, c, r), NL) == ""
    ensures Fresh(parse, c, r) == []
  {
    NoDuplicateAdded(parse, c, r);
    NothingJoined(AllKeys(parse, c, r));
    OnlyBlankAdded(ExistingKeys(parse, c.key), Fresh(parse, c, r));
  }

  /** A broken array loses its keys as soon as one is added. */
  lemma AppendToBrokenArray(parse: Parser, c: Channel, r: Request)
    requires IsJson(parse) && c.key != "" && BrokenArray(parse, c.key) && Join(AllKeys(parse, c, r), NL) != ""
    ensures AllKeys(parse, c, r) == Fresh(parse, c, r)
    ensures Keys(parse, Join(AllKeys(parse, c, r), NL)) != Keys(parse, c.key) + Fresh(parse, c, r)
  {
    assert AllKeys(parse, c, r) == Fresh(parse, c, r);
    NotLonger(parse, Fresh(parse, c, r), Keys(parse, c.key));
  }

  lemma OnlyBlankAdded(existing: seq<string>, added: seq<string>)
    requires existing + added == [] || existing + added == [""]
    ensures added == [] || "" in added
  {
    if added != [] {
      assert |existing + added| == |existing| + |added|;
      assert existing == [] && added == existing + added;
      assert added[0] == "";
    }
  }

  lemma NothingJoined(ks: seq<string>)
    requires Join(ks, NL) == ""
    ensures ks == [] || ks == [""]
  {
    if ks != [] { JoinLength(ks); }
  }

  /** Then every old entry stays as it was, and the added keys are enabled. */
  lemma AppendExtendsView(parse: Parser, c: Channel, r: Request)
    requires IsJson(parse) && Sound(parse, c) && c.key != "" && Parsed(parse, c.key) != Some([])
    requires !BrokenArray(parse, c.key) && Stable(parse, AllKeys(parse, c, r))
    ensures Extends(View(parse, Done(parse, c, Append(r))), View(parse, c), Fresh(parse, c, r))
  {
    var all := AllKeys(parse, c, r);
    StableIff(parse, all);
    assert ExistingKeys(parse, c.key) == Keys(parse, c.key);
    WrittenKeys(parse, c, Join(all, NL), all);
    ViewExtends(parse, c, Done(parse, c, Append(r)), Fresh(parse, c, r));
  }

  lemma WrittenKeys(parse: Parser, c: Channel, k: string, all: seq<string>)
    requires k != "" && CountedKeys(parse, k) == all
    ensures Saved(parse, c, c.(key := k)) == Channel(k, |all|, Pruned(c.status, |all|), c.time, c.reason)
  {}

  ghost predicate Extends(after: seq<Entry>, before: seq<Entry>, added: seq<string>) {
    && |after| == |before| + |added| && before <= after
    && forall j | 0 <= j < |added| :: after[|before| + j] == Entry(added[j], ENABLED, 0, "")
  }

  lemma ViewExtends(parse: Parser, c: Channel, d: Channel, added: seq<string>)
    requires Sound(parse, c) && c.size == |Keys(parse, c.key)|
    requires Keys(parse, d.key) == Keys(parse, c.key) + added
    requires d.status == Pruned(c.status, |Keys(parse, d.key)|) && d.time == c.time && d.reason == c.reason
    ensures Extends(View(parse, d), View(parse, c), added)
  {
    var news := seq(|added|, j requires 0 <= j < |added| => Entry(added[j], ENABLED, 0, ""));
    var entries := View(parse, c) + news;
    forall i | 0 <= i < |entries| ensures entries[i] == EntryAt(d, Keys(parse, d.key)[i], i) { StatusStays(c, d, |Keys(parse, d.key)|, i); }
    ViewIs(parse, d, entries);
  }

  lemma StatusStays(c: Channel, d: Channel, size: nat, i: nat)
    requires (forall j | j in c.status :: j < c.size) && d.status == Pruned(c.status, size) && i < size
    ensures StatusOf(d, i) == StatusOf(c, i) && (i >= c.size ==> StatusOf(c, i) == ENABLED)
  {}

  /** Reading a joined list back never yields the list with more keys in front. */
  lemma NotLonger(parse: Parser, ks: seq<string>, more: seq<string>)
    requires IsJson(parse) && ks != [] && Join(ks, NL) != "" && more != []
    ensures Keys(parse, Join(ks, NL)) != more + ks
  {
    if Parsed(parse, Join(ks, NL)).Some? {
      ArrayIsNotItsText(parse, ks, more);
    } else if Lines(Join(ks, NL)) == more + ks {
      SplitIsFree(Trim(Join(ks, NL), Is(NL)), NL);
      assert forall k | k in ks :: k in more + ks;
      LinesOfJoin(ks);
    }
  }

  // ---- What is posted and what is added ----

  /** The places in the posted list that give the added keys. */
  ghost predicate FirstPlaces(posted: seq<string>, added: seq<string>, at: seq<nat>) {
    && |at| == |added| && (forall j, k :: 0 <= j < k < |at| ==> at[j] < at[k])
    && (forall j | 0 <= j < |at| :: at[j] < |posted| && TrimSpace(posted[at[j]]) == added[j])
    && (forall j, i | 0 <= j < |at| && 0 <= i < at[j] :: TrimSpace(posted[i]) != added[j])
  }

  /** The added keys are the posted ones, trimmed, each at its first place and in their order;
      none is blank or there before, and every posted key that is not blank is one or the other. */
  ghost predicate AddsPosted(posted: seq<string>, existing: seq<string>, added: seq<string>, at: seq<nat>) {
    && FirstPlaces(posted, added, at)
    && (forall x | x in added :: x != "" && forall k | k in existing :: TrimSpace(k) != x)
    && (forall p | p in posted && TrimSpace(p) != "" :: TrimSpace(p) in added || exists k :: k in existing && TrimSpace(k) == TrimSpace(p))
  }

  lemma {:induction false} DedupedPlaces(posted: seq<string>, known: set<string>) returns (at: seq<nat>)
    ensures FirstPlaces(posted, Deduped(posted, known), at)
    ensures forall x | x in Deduped(posted, known) :: x != "" && x !in known
    ensures forall p | p in posted && TrimSpace(p) != "" :: TrimSpace(p) in known || TrimSpace(p) in Deduped(posted, known)
  {
    if posted == [] {
      at := [];
    } else {
      var front, last := posted[..|posted| - 1], TrimSpace(posted[|posted| - 1]);
      at := DedupedPlaces(front, known);
      var before := Deduped(front, known);
      assert posted == front + [posted[|posted| - 1]];
      if last != "" && last !in known && last !in before {
        PlacesExtend(front, posted[|posted| - 1], before, at);
        at := at + [|front|];
      } else {
        PlacesStay(front, posted[|posted| - 1], before, at);
      }
    }
  }

  lemma PlacesStay(front: seq<string>, last: string, added: seq<string>, at: seq<nat>)
    requires FirstPlaces(front, added, at)
    ensures FirstPlaces(front + [last], added, at)
  {}

  lemma PlacesExtend(front: seq<string>, last: string, added: seq<string>, at: seq<nat>)
    requires FirstPlaces(front, added, at)
    requires forall p | p in front :: TrimSpace(p) != TrimSpace(last)
    ensures FirstPlaces(front + [last], added + [TrimSpace(last)], at + [|front|])
  {
    forall i | 0 <= i < |front| ensures TrimSpace((front + [last])[i]) != TrimSpace(last) {
      assert front[i] in front;
    }
  }

  /** Dropping blank lines first makes no difference. */
  lemma {:induction false} DedupedNonBlank(ks: seq<string>, seen: set<string>)
    ensures Deduped(NonBlank(ks), seen) == Deduped(ks, seen)
  {
    if ks != [] {
      var front, last := ks[..|ks| - 1], TrimSpace(ks[|ks| - 1]);
      DedupedNonBlank(front, seen);
      TrimSpaceSpec(ks[|ks| - 1]);
      if last != "" {
        assert (NonBlank(front) + [last])[..|NonBlank(front)|] == NonBlank(front);
      } else {
        assert NonBlank(ks) == NonBlank(front);
      }
    }
  }

  /** The keys that were there: the lines of the stored text, or the elements of its array. */
  ghost predicate Stores(parse: Parser, key: string, existing: seq<string>) {
    if !Bracketed(key) then existing == Split(Trim(key, Is(NL)), NL)
    else if parse(TrimSpace(key)).Some? then existing == parse(TrimSpace(key)).value
    else existing == []
  }

  /** What is written when `posted` is appended: the keys there were, then the added ones. */
  ghost predicate Writes(c: Channel, after: string, existing: seq<string>, posted: seq<string>, added: seq<string>, at: seq<nat>) {
    && AddsPosted(posted, existing, added, at)
    && after == if Join(existing + added, NL) == "" then c.key else Join(existing + added, NL)
  }

  lemma PostedAppended(c: Channel, after: string, existing: seq<string>, posted: seq<string>) returns (at: seq<nat>)
    requires after == var k := Join(existing + Deduped(posted, Normalized(existing)), NL); if k == "" then c.key else k
    ensures Writes(c, after, existing, posted, Deduped(posted, Normalized(existing)), at)
  {
    at := DedupedPlaces(posted, Normalized(existing));
  }

  /** An ordinary channel takes the posted text line by line. */
  lemma PostedLinesAppended(parse: Parser, c: Channel, existing: seq<string>, text: string) returns (added: seq<string>, at: seq<nat>)
    requires c.key != "" && Stores(parse, c.key, existing)
    ensures Writes(c, Done(parse, c, Append(Request(text, None))).key, existing, Split(text, NL), added, at)
  {
    added := Deduped(Split(text, NL), Normalized(existing));
    var r := Request(text, None);
    assert AppendedKey(parse, c, r) == Join(existing + added, NL) by {
      DedupedNonBlank(Split(text, NL), Normalized(existing));
      assert existing == ExistingKeys(parse, c.key);
    }
    at := PostedAppended(c, Done(parse, c, Append(r)).key, existing, Split(text, NL));
  }

  /** A Vertex channel takes the posted keys one by one. */
  lemma PostedKeysAppended(parse: Parser, c: Channel, existing: seq<string>, text: string, keys: seq<string>)
    returns (added: seq<string>, at: seq<nat>)
    requires c.key != "" && Stores(parse, c.key, existing)
    ensures Writes(c, Done(parse, c, Append(Request(text, Some(keys)))).key, existing, keys, added, at)
  {
    added := Deduped(keys, Normalized(existing));
    var r := Request(text, Some(keys));
    assert AppendedKey(parse, c, r) == Join(existing + added, NL) by {
      assert existing == ExistingKeys(parse, c.key);
    }
    at := PostedAppended(c, Done(parse, c, Append(r)).key, existing, keys);
  }

  /** A channel without a key takes the posted text as it is. */
  lemma EmptyChannelTakesText(parse: Parser, c: Channel, r: Request)
    requires c.key == ""
    ensures Done(parse, c, Append(r)).key == r.text
  {}

  /** Every posted line that is not blank is, trimmed, one of the keys afterwards, and no key was
      lost, as long as the text that was written is read as lines. */
  lemma PostedLinesAreKeys(parse: Parser, c: Channel, existing: seq<string>, text: string, line: string)
    requires c.key != "" && Stores(parse, c.key, existing) && forall k | k in existing :: NL !in k
    requires (line in Split(text, NL) || line in existing) && TrimSpace(line) != ""
    requires !Bracketed(Done(parse, c, Append(Request(text, None))).key)
    ensures exists k :: k in Keys(parse, Done(parse, c, Append(Request(text, None))).key) && TrimSpace(k) == TrimSpace(line)
  {
    var x := TrimSpace(line);
    var added, at := PostedLinesAppended(parse, c, existing, text);
    var k: string;
    if x in added {
      SplitIsFree(text, NL);
      var j :| 0 <= j < |added| && added[j] == x;
      TrimSpaceSpec(Split(text, NL)[at[j]]);
      TrimSpaceSpec(x);
      k := x;
    } else if line in existing {
      k := line;
    } else {
      k :| k in existing && TrimSpace(k) == x;
    }
    TrimSpaceSpec(k);
    PartIsLine(existing + added, k);
  }

  /** A non-empty part without a line break is read back from the joined text. */
  lemma {:induction false} PartIsSplit(parts: seq<string>, x: string)
    requires x in parts && NL !in x
    ensures x in Split(Join(parts, NL), NL)
  {
    if |parts| == 1 {
      SplitHead(x, [], NL);
    } else {
      SplitConcat(parts[0], Join(parts[1..], NL), NL);
      if x == parts[0] {
        SplitHead(x, [], NL);
      } else {
        PartIsSplit(parts[1..], x);
      }
    }
  }

  lemma PartIsLine(parts: seq<string>, x: string)
    requires x in parts && x != "" && NL !in x
    ensures Join(parts, NL) != "" && x in Lines(Join(parts, NL))
  {
    PartIsSplit(parts, x);
    TrimKeepsParts(Join(parts, NL), NL, x);
    assert Split("", NL) == [""];
  }

  // ---- Appending the same keys again ----

  lemma {:induction false} NothingDeduped(ks: seq<string>, seen: set<string>)
    requires Normalized(ks) <= seen
    ensures Deduped(ks, seen) == []
  {
    if ks != [] {
      var before := ks[..|ks| - 1];
      forall k | k in Normalized(before) ensures k in seen {
        var j :| j in before && TrimSpace(j) == k;
        assert j in ks && k in Normalized(ks);
      }
      assert ks[|ks| - 1] in ks;
      NothingDeduped(before, seen);
    }
  }

  lemma NothingDedupedIff(ks: seq<string>, seen: set<string>)
    ensures Deduped(ks, seen) == [] <==> Normalized(ks) <= seen
  {
    DedupedSpec(ks, seen);
    if Normalized(ks) <= seen {
      NothingDeduped(ks, seen);
    } else {
      var k :| k in Normalized(ks) && k !in seen;
      assert k in Deduped(ks, seen);
    }
  }

  /** Deduplicated keys begin and end in characters that are no space. */
  lemma DedupedEnds(ks: seq<string>, seen: set<string>)
    ensures forall k | k in Deduped(ks, seen) :: k != "" && !IsSpace(k[0]) && !IsSpace(k[|k| - 1])
  {
    DedupedSpec(ks, seen);
    forall k | k in Deduped(ks, seen) ensures k != "" && !IsSpace(k[0]) && !IsSpace(k[|k| - 1]) {
      var j :| j in ks && TrimSpace(j) == k;
      TrimSpec(j, IsSpace);
    }
  }

  /** The text a second append would write. */
  function SecondText(parse: Parser, k: string, posted: seq<string>): string {
    Join(ExistingKeys(parse, k) + Deduped(posted, Normalized(ExistingKeys(parse, k))), NL)
  }

  /** The second append keeps the text, as far as the text and the new keys tell:
      - as lines, when none is lost to trimming and every new key is one of them;
      - never, when the text is a JSON array with elements, which are written out as lines;
      - else the text has no keys to keep, and it must be the new keys themselves. */
  ghost predicate Settled(parse: Parser, k: string, posted: seq<string>) {
    if !Bracketed(k) then (Trim(k, Is(NL)) == "" || Trimmed(k, Is(NL))) && Normalized(posted) <= Normalized(Lines(k))
    else if Parsed(parse, k).Some? && Parsed(parse, k).value != [] then false
    else Normalized(posted) == {} || Join(Deduped(posted, {}), NL) == k
  }

  lemma LinesSettle(parse: Parser, k: string, posted: seq<string>)
    requires k != "" && !Bracketed(k)
    ensures SecondText(parse, k, posted) == "" || SecondText(parse, k, posted) == k <==> Settled(parse, k, posted)
  {
    var lines := Lines(k);
    var added := Deduped(posted, Normalized(lines));
    NothingDedupedIff(posted, Normalized(lines));
    JoinSplit(Trim(k, Is(NL)), NL);
    TrimSpec(k, Is(NL));
    if added == [] {
      assert lines + added == lines;
    } else {
      GrownText(k, added, posted, Normalized(lines));
    }
  }

  lemma GrownText(k: string, added: seq<string>, posted: seq<string>, seen: set<string>)
    requires k != "" && added == Deduped(posted, seen) != []
    ensures Join(Lines(k) + added, NL) != "" && Join(Lines(k) + added, NL) != k
  {
    var head, text := Trim(k, Is(NL)), Join(Lines(k) + added, NL);
    JoinSplit(head, NL);
    JoinAppend(Lines(k), added, NL);
    assert text == head + [NL] + Join(added, NL);
    DedupedEnds(posted, seen);
    JoinEnds(added, NL);
    assert added[|added| - 1] in added;
    assert text[|text| - 1] != NL;
    TrimSpec(k, Is(NL));
    if head == "" {
      TrimToNothing(k, NL);
      assert k[|k| - 1] in k;
    }
  }

  lemma ArraysNeverSettle(parse: Parser, k: string, posted: seq<string>)
    requires IsJson(parse) && Bracketed(k) && Parsed(parse, k).Some? && Parsed(parse, k).value != []
    ensures SecondText(parse, k, posted) != "" && SecondText(parse, k, posted) != k
  {
    var arr := Parsed(parse, k).value;
    var all := arr + Deduped(posted, Normalized(arr));
    assert all[0] == arr[0];
    JoinStarts(all, NL);
    assert arr[0] <= SecondText(parse, k, posted);
    if arr[0] <= k { PrefixOfTrimmed(k, arr); }
  }

  lemma PrefixOfTrimmed(k: string, arr: seq<string>)
    requires arr != [] && arr[0] != "" && !IsSpace(arr[0][0]) && arr[0] <= k && Total(arr) < |TrimSpace(k)|
    ensures arr[0] <= TrimSpace(k)
  {
    assert TrimLeft(k, IsSpace) == k;
    TrimRightSpec(k, IsSpace);
    assert |arr[0]| <= Total(arr);
  }

  lemma NoKeysSettle(parse: Parser, k: string, posted: seq<string>)
    requires k != "" && Bracketed(k) && (Parsed(parse, k).None? || Parsed(parse, k).value == [])
    ensures SecondText(parse, k, posted) == "" || SecondText(parse, k, posted) == k <==> Settled(parse, k, posted)
  {
    var added := Deduped(posted, {});
    assert ExistingKeys(parse, k) == [] && Normalized([]) == {};
    assert [] + added == added;
    NothingDedupedIff(posted, {});
    DedupedSpec(posted, {});
    if Join(added, NL) == "" {
      NothingJoined(added);
      OnlyBlankAdded([], added);
    }
  }

  /** Writing back what is stored changes nothing. */
  lemma SaveKeepsIff(parse: Parser, c: Channel, next: Channel, k: string)
    ensures var d := Saved(parse, c, next); Saved(parse, d, d.(key := k)) == d <==> k == "" || k == d.key
  {
    var d := Saved(parse, c, next);
    assert Pruned(d.status, d.size) == d.status;
  }

  lemma SecondAppend(parse: Parser, c: Channel, r: Request)
    ensures var k, d := AppendedKey(parse, c, r), Done(parse, c, Append(r));
            AppendedKey(parse, d, r) == if k == "" then "" else SecondText(parse, k, NewKeys(r))
  {}

  lemma SettledIff(parse: Parser, k: string, posted: seq<string>)
    requires IsJson(parse) && k != ""
    ensures SecondText(parse, k, posted) == "" || SecondText(parse, k, posted) == k <==> Settled(parse, k, posted)
  {
    if !Bracketed(k) {
      LinesSettle(parse, k, posted);
    } else if Parsed(parse, k).Some? && Parsed(parse, k).value != [] {
      ArraysNeverSettle(parse, k, posted);
    } else {
      NoKeysSettle(parse, k, posted);
    }
  }

  /** Appending the same keys again changes nothing, exactly when nothing was written or the text
      written settles. */
  lemma AppendIdempotentIff(parse: Parser, c: Channel, r: Request)
    requires IsJson(parse)
    ensures var k := AppendedKey(parse, c, r);
            Done(parse, Done(parse, c, Append(r)), Append(r)) == Done(parse, c, Append(r)) <==> k == "" || Settled(parse, k, NewKeys(r))
  {
    var k := AppendedKey(parse, c, r);
    SecondAppend(parse, c, r);
    SaveKeepsIff(parse, c, c.(key := k), AppendedKey(parse, Done(parse, c, Append(r)), r));
    if k != "" { SettledIff(parse, k, NewKeys(r)); }
  }

  /** In particular when all keys together are stable and do not start like an array. */
  lemma AppendIdempotent(parse: Parser, c: Channel, r: Request)
    requires IsJson(parse) && c.key != "" && Stable(parse, AllKeys(parse, c, r)) && !Bracketed(Join(AllKeys(parse, c, r), NL))
    ensures Done(parse, Done(parse, c, Append(r)), Append(r)) == Done(parse, c, Append(r))
  {
    var k := AppendedKey(parse, c, r);
    StableIff(parse, AllKeys(parse, c, r));
    LinesOfJoin(AllKeys(parse, c, r));
    NoDuplicateAdded(parse, c, r);
    AppendIdempotentIff(parse, c, r);
  }

  /** A key of several lines, as a Vertex key may be, is never found again, because it is read back
      line by line. */
  lemma LineBreakNeverSettles(parse: Parser, c: Channel, r: Request, x: string)
    requires IsJson(parse) && AppendedKey(parse, c, r) != "" && !Bracketed(AppendedKey(parse, c, r))
    requires x in NewKeys(r) && NL in TrimSpace(x)
    ensures Done(parse, Done(parse, c, Append(r)), Append(r)) != Done(parse, c, Append(r))
  {
    var k := AppendedKey(parse, c, r);
    NotALine(k, TrimSpace(x));
    assert TrimSpace(x) in Normalized(NewKeys(r));
    AppendIdempotentIff(parse, c, r);
  }

  lemma NotALine(k: string, x: string)
    requires NL in x
    ensures x !in Normalized(Lines(k))
  {
    SplitIsFree(Trim(k, Is(NL)), NL);
    forall l | l in Lines(k) ensures TrimSpace(l) != x { TrimSpaceSpec(l); }
  }

  lemma DedupedOne(x: string, seen: set<string>)
    requires TrimSpace(x) == x != "" && x !in seen
    ensures Deduped([x], seen) == [x]
  {
    assert [x][..0] == [] && Deduped([], seen) == [];
  }

  lemma LinesJoined(k: string)
    requires Trimmed(k, Is(NL))
    ensures Join(Lines(k), NL) == k
  {
    TrimSpec(k, Is(NL));
    JoinSplit(k, NL);
  }

  lemma StaysTrimmed(k: string, x: string)
    requires k != "" && Trimmed(k, Is(NL)) && x != "" && TrimSpace(x) == x
    ensures Trimmed(k + [NL] + x, Is(NL))
  {
    TrimSpec(x, IsSpace);
    var text := k + [NL] + x;
    assert text[0] == k[0] && text[|text| - 1] == x[|x| - 1];
  }

  /** Each time it is appended, it is written once more behind the keys that are there. */
  lemma TextGrows(parse: Parser, k: string, x: string)
    requires k != "" && !Bracketed(k) && Trimmed(k, Is(NL)) && NL in x && TrimSpace(x) == x
    ensures SecondText(parse, k, [x]) == k + [NL] + x && Trimmed(k + [NL] + x, Is(NL))
  {
    var lines := Lines(k);
    NotALine(k, x);
    DedupedOne(x, Normalized(lines));
    assert SecondText(parse, k, [x]) == Join(lines + [x], NL);
    LinesJoined(k);
    JoinAppend(lines, [x], NL);
    StaysTrimmed(k, x);
  }

  lemma AppendWrites(parse: Parser, c: Channel, x: string)
    requires c.key != "" && SecondText(parse, c.key, [x]) != ""
    ensures Done(parse, c, Append(Request(x, Some([x])))).key == SecondText(parse, c.key, [x])
  {}

  lemma MultiLineKeyGrows(parse: Parser, c: Channel, x: string)
    requires c.key != "" && !Bracketed(c.key) && Trimmed(c.key, Is(NL)) && NL in x && TrimSpace(x) == x
    requires !Bracketed(c.key + [NL] + x)
    ensures var r := Append(Request(x, Some([x])));
            && Done(parse, c, r).key == c.key + [NL] + x
            && Done(parse, Done(parse, c, r), r).key == c.key + [NL] + x + [NL] + x
  {
    TextGrows(parse, c.key, x);
    AppendWrites(parse, c, x);
    TextGrows(parse, c.key + [NL] + x, x);
    AppendWrites(parse, Done(parse, c, Append(Request(x, Some([x])))), x);
  }

  /** A two-line key posted twice to a channel with the key "x". */
  lemma TwoLineKeyTwice(parse: Parser, c: Channel, x: string)
    requires c.key == "x" && x == "a\nb"
    ensures var r := Append(Request(x, Some([x])));
            Done(parse, Done(parse, c, r), r).key == "x" + [NL] + x + [NL] + x
  {
    assert x[1] == NL;
    TrimSpec(x, IsSpace);
    StartsPlain(c.key);
    StartsPlain(c.key + [NL] + x);
    MultiLineKeyGrows(parse, c, x);
  }

  lemma StartsPlain(text: string)
    requires text != "" && text[0] == 'x'
    ensures !Bracketed(text)
  {
    assert TrimLeft(text, IsSpace) == text;
    TrimRightSpec(text, IsSpace);
  }
}
