/** get_key_status of controller/channel.go: the statuses of all keys, counted, filtered and paged. */
module KeyPages {
  import opened Base
  import opened MultiKey
  import opened KeyViews

  type Byte = b: int | 0 <= b < 256

  datatype KeyStatus = KeyStatus(index: nat, status: int, disabledTime: int, reason: string, preview: seq<Byte>)

  datatype Page = Page(keys: seq<KeyStatus>, total: nat, page: int, pageSize: int, totalPages: int,
                       enabled: nat, manuallyDisabled: nat, autoDisabled: nat)

  function Utf8Char(c: char): seq<Byte> {
    var u := c as int;
    if u < 0x80 then [u]
    else if u < 0x800 then [0xC0 + u / 0x40, 0x80 + u % 0x40]
    else if u < 0x1_0000 then [0xE0 + u / 0x1000, 0x80 + u / 0x40 % 0x40, 0x80 + u % 0x40]
    else [0xF0 + u / 0x4_0000, 0x80 + u / 0x1000 % 0x40, 0x80 + u / 0x40 % 0x40, 0x80 + u % 0x40]
  }

  function Utf8(s: string): seq<Byte> {
    if s == [] then [] else Utf8Char(s[0]) + Utf8(s[1..])
  }

  /** The first ten bytes of the key, wherever they end. */
  function Preview(key: string): seq<Byte> {
    if |Utf8(key)| > 10 then Utf8(key)[..10] + Utf8("...") else Utf8(key)
  }

  function Shown(e: Entry, i: nat, preview: string -> seq<Byte>): KeyStatus {
    KeyStatus(i, e.status, e.time, e.reason, preview(e.key))
  }

  /** The statuses of the first `n` keys that pass the filter. */
  function Selected(view: seq<Entry>, n: nat, filter: Option<int>, preview: string -> seq<Byte>): seq<KeyStatus>
    requires n <= |view|
  {
    if n == 0 then []
    else Selected(view, n - 1, filter, preview) +
         if Passes(view[n - 1], filter) then [Shown(view[n - 1], n - 1, preview)] else []
  }

  predicate Passes(e: Entry, filter: Option<int>) {
    filter.None? || e.status == filter.value
  }

  /** The filtered list holds exactly the keys with the status asked for, or all of them, under their
      own index and as they are shown. */
  lemma {:induction false} SelectedSpec(view: seq<Entry>, n: nat, filter: Option<int>, preview: string -> seq<Byte>, s: KeyStatus)
    requires n <= |view|
    ensures s in Selected(view, n, filter, preview) <==>
            && s.index < n && (filter.Some? ==> view[s.index].status == filter.value)
            && s.status == view[s.index].status && s.disabledTime == view[s.index].time && s.reason == view[s.index].reason
            && s.preview == preview(view[s.index].key)
  {
    if n > 0 { SelectedSpec(view, n - 1, filter, preview, s); }
  }

  lemma {:induction false} SelectedAscends(view: seq<Entry>, n: nat, filter: Option<int>, preview: string -> seq<Byte>, j: nat, k: nat)
    requires n <= |view| && j < k < |Selected(view, n, filter, preview)|
    ensures Selected(view, n, filter, preview)[j].index < Selected(view, n, filter, preview)[k].index
  {
    var before := Selected(view, n - 1, filter, preview);
    if k < |before| {
      SelectedAscends(view, n - 1, filter, preview, j, k);
    } else {
      SelectedSpec(view, n - 1, filter, preview, before[j]);
    }
  }

  function TotalPages(total: nat, pageSize: nat): nat
    requires pageSize > 0
  {
    var pages := (total + pageSize - 1) / pageSize;
    if pages == 0 then 1 else pages
  }

  /** Page `p`, counted from 1. */
  function Slice<T>(list: seq<T>, p: nat, pageSize: nat): seq<T>
    requires p > 0 && pageSize > 0
  {
    var start := (p - 1) * pageSize;
    var end := if start + pageSize > |list| then |list| else start + pageSize;
    if 0 <= start < |list| then list[start..end] else []
  }

  method GetKeyStatus(parse: Parser, c: Channel, page: int, pageSize: int, filter: Option<int>) returns (r: Page)
    ensures var view := View(parse, c);
            && r.enabled == Number(view, ENABLED) && r.manuallyDisabled == Number(view, MANUALLY_DISABLED)
            && r.autoDisabled == Number(view, AUTO_DISABLED)
            && r.pageSize == (if pageSize <= 0 then 50 else pageSize)
            && r.total == |Selected(view, |view|, filter, Preview)| && r.totalPages == TotalPages(r.total, r.pageSize)
            && r.page == (if page <= 0 then 1 else if page > r.totalPages then r.totalPages else page)
            && r.keys == Slice(Selected(view, |view|, filter, Preview), r.page, r.pageSize)
  {
    var size := if pageSize <= 0 then 50 else pageSize;
    var p := if page <= 0 then 1 else page;
    var view := View(parse, c);
    var enabled, manual, auto, list := CollectStatuses(view, filter, Preview);
    var totalPages := TotalPages(|list|, size);
    if p > totalPages { p := totalPages; }
    r := Page(Slice(list, p, size), |list|, p, size, totalPages, enabled, manual, auto);
  }

  /** The loops over the keys. */
  method CollectStatuses(view: seq<Entry>, filter: Option<int>, preview: string -> seq<Byte>)
    returns (enabled: nat, manual: nat, auto: nat, list: seq<KeyStatus>)
    ensures enabled == Number(view, ENABLED) && manual == Number(view, MANUALLY_DISABLED) && auto == Number(view, AUTO_DISABLED)
    ensures list == Selected(view, |view|, filter, preview)
  {
    enabled, manual, auto, list := 0, 0, 0, [];
    for i := 0 to |view|
      invariant enabled == Number(view[..i], ENABLED) && manual == Number(view[..i], MANUALLY_DISABLED) && auto == Number(view[..i], AUTO_DISABLED)
      invariant list == Selected(view, i, filter, preview)
    {
      var status := view[i].status;
      assert view[..i + 1][..i] == view[..i];
      if status == ENABLED { enabled := enabled + 1; }
      else if status == MANUALLY_DISABLED { manual := manual + 1; }
      else if status == AUTO_DISABLED { auto := auto + 1; }
      if Passes(view[i], filter) { list := list + [Shown(view[i], i, preview)]; }
    }
    assert view[..|view|] == view;
  }

  function FirstPages<T>(list: seq<T>, pageSize: nat, k: nat): seq<T>
    requires pageSize > 0
  {
    if k == 0 then [] else FirstPages(list, pageSize, k - 1) + Slice(list, k, pageSize)
  }

  function Min(a: nat, b: nat): nat {
    if a < b then a else b
  }

  lemma SliceExtends<T>(list: seq<T>, p: nat, pageSize: nat, start: nat)
    requires p > 0 && pageSize > 0 && start == (p - 1) * pageSize
    ensures list[..Min(start, |list|)] + Slice(list, p, pageSize) == list[..Min(start + pageSize, |list|)]
  {}

  lemma {:induction false} FirstPagesArePrefix<T>(list: seq<T>, pageSize: nat, k: nat)
    requires pageSize > 0
    ensures 0 <= k * pageSize && FirstPages(list, pageSize, k) == list[..Min(k * pageSize, |list|)]
  {
    if k > 0 {
      FirstPagesArePrefix(list, pageSize, k - 1);
      assert k * pageSize == (k - 1) * pageSize + pageSize;
      SliceExtends(list, k, pageSize, (k - 1) * pageSize);
    }
  }

  lemma PagesSuffice(total: nat, pageSize: nat)
    requires pageSize > 0
    ensures TotalPages(total, pageSize) * pageSize >= total
    ensures (TotalPages(total, pageSize) - 1) * pageSize < total || total == 0
  {
    var pages := (total + pageSize - 1) / pageSize;
    assert total + pageSize - 1 == pages * pageSize + (total + pageSize - 1) % pageSize;
    assert (pages - 1) * pageSize == pages * pageSize - pageSize;
  }

  /** Read one after the other, the pages give the filtered list exactly once, and no page but
      that of an empty list is empty. */
  lemma PagesGiveList<T>(list: seq<T>, pageSize: nat)
    requires pageSize > 0
    ensures FirstPages(list, pageSize, TotalPages(|list|, pageSize)) == list
    ensures forall p | 1 <= p <= TotalPages(|list|, pageSize) && list != [] :: Slice(list, p, pageSize) != []
  {
    PagesSuffice(|list|, pageSize);
    FirstPagesArePrefix(list, pageSize, TotalPages(|list|, pageSize));
    forall p | 1 <= p <= TotalPages(|list|, pageSize) && list != [] ensures Slice(list, p, pageSize) != [] {
      StartsGrow(p - 1, TotalPages(|list|, pageSize) - 1, pageSize);
    }
  }

  lemma StartsGrow(a: nat, b: nat, pageSize: nat)
    requires a <= b
    ensures 0 <= a * pageSize <= b * pageSize
  {
    assert b * pageSize == a * pageSize + (b - a) * pageSize;
    assert (b - a) * pageSize >= 0;
  }

  /** Position `k` of page `p` holds element (p - 1) * pageSize + k, and a page is full unless the
      list ends on it. */
  lemma PageHolds<T>(list: seq<T>, p: nat, pageSize: nat, start: nat)
    requires p > 0 && pageSize > 0 && start == (p - 1) * pageSize
    ensures var page := Slice(list, p, pageSize);
            && |page| == (if start + pageSize <= |list| then pageSize else if start < |list| then |list| - start else 0)
            && forall k | 0 <= k < |page| :: page[k] == list[start + k]
  {}

  predicate Ascii(key: string) {
    forall i | 0 <= i < |key| :: key[i] as int < 0x80
  }

  lemma {:induction false} AsciiBytes(key: string)
    requires Ascii(key)
    ensures |Utf8(key)| == |key| && forall i | 0 <= i < |key| :: Utf8(key)[i] == key[i] as int
  {
    if key != [] { AsciiBytes(key[1..]); }
  }

  /** Of an ASCII key at most ten characters are shown, with three dots if there are more. */
  lemma AsciiPreview(key: string)
    requires Ascii(key)
    ensures |key| <= 10 ==> |Preview(key)| == |key| && forall i | 0 <= i < |key| :: Preview(key)[i] == key[i] as int
    ensures |key| > 10 ==> |Preview(key)| == 13 && forall i | 0 <= i < 13 :: Preview(key)[i] == if i < 10 then key[i] as int else '.' as int
  {
    AsciiBytes(key);
    ThreeDots();
  }

  lemma ThreeDots()
    ensures Utf8("...") == [0x2E, 0x2E, 0x2E]
  {
    AsciiBytes("...");
  }

  /** The number that one to four bytes spell. */
  function Spelled(bs: seq<Byte>): int {
    var at := (i: int) requires 0 <= i < |bs| => bs[i] as int;
    if |bs| == 1 then at(0)
    else if |bs| == 2 then (at(0) - 0xC0) * 0x40 + at(1) - 0x80
    else if |bs| == 3 then (at(0) - 0xE0) * 0x1000 + (at(1) - 0x80) * 0x40 + at(2) - 0x80
    else if |bs| == 4 then (at(0) - 0xF0) * 0x4_0000 + (at(1) - 0x80) * 0x1000 + (at(2) - 0x80) * 0x40 + at(3) - 0x80
    else 0
  }

  /** A character takes as few bytes as its number allows, and they spell that number. */
  lemma Utf8CharSpells(c: char)
    ensures Spelled(Utf8Char(c)) == c as int
    ensures |Utf8Char(c)| == if c as int <= 0x7F then 1 else if c as int <= 0x7FF then 2 else if c as int <= 0xFFFF then 3 else 4
  {
    var u := c as int;
    assert u == u / 0x40 * 0x40 + u % 0x40;
    assert u / 0x40 == u / 0x1000 * 0x40 + u / 0x40 % 0x40;
    assert u / 0x1000 == u / 0x4_0000 * 0x40 + u / 0x1000 % 0x40;
  }
}
