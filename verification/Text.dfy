/** The string functions of Go's `strings` package that the channel code relies on. */
module Text {

  /** unicode.IsSpace. */
  predicate IsSpace(c: char) {
    c == '\t' || c == '\n' || c == '\U{0B}' || c == '\U{0C}' || c == '\r' || c == ' ' || c == '\U{85}' || c == '\U{A0}'
    || c == '\U{1680}' || '\U{2000}' <= c <= '\U{200A}' || c == '\U{2028}' || c == '\U{2029}' || c == '\U{202F}'
    || c == '\U{205F}' || c == '\U{3000}'
  }

  function TrimLeft(s: string, cut: char -> bool): string {
    if s != [] && cut(s[0]) then TrimLeft(s[1..], cut) else s
  }

  function TrimRight(s: string, cut: char -> bool): string {
    if s != [] && cut(s[|s| - 1]) then TrimRight(s[..|s| - 1], cut) else s
  }

  function Trim(s: string, cut: char -> bool): string {
    TrimRight(TrimLeft(s, cut), cut)
  }

  function TrimSpace(s: string): string {
    Trim(s, IsSpace)
  }

  ghost predicate Trimmed(s: string, cut: char -> bool) {
    s == [] || (!cut(s[0]) && !cut(s[|s| - 1]))
  }

  lemma {:induction false} TrimLeftSpec(s: string, cut: char -> bool)
    ensures |TrimLeft(s, cut)| <= |s| && TrimLeft(s, cut) == s[|s| - |TrimLeft(s, cut)|..]
    ensures TrimLeft(s, cut) == [] || !cut(TrimLeft(s, cut)[0])
  {
    if s != [] && cut(s[0]) { TrimLeftSpec(s[1..], cut); }
  }

  lemma {:induction false} TrimRightSpec(s: string, cut: char -> bool)
    ensures TrimRight(s, cut) <= s
    ensures TrimRight(s, cut) == [] || !cut(TrimRight(s, cut)[|TrimRight(s, cut)| - 1])
  {
    if s != [] && cut(s[|s| - 1]) { TrimRightSpec(s[..|s| - 1], cut); }
  }

  /** Trimming yields a trimmed piece of the string, and leaves a trimmed string alone. */
  lemma TrimSpec(s: string, cut: char -> bool)
    ensures Trimmed(Trim(s, cut), cut)
    ensures forall c | c in Trim(s, cut) :: c in s
    ensures Trimmed(s, cut) ==> Trim(s, cut) == s
  {
    TrimLeftSpec(s, cut);
    TrimRightSpec(TrimLeft(s, cut), cut);
  }

  lemma TrimSpaceSpec(s: string)
    ensures TrimSpace(TrimSpace(s)) == TrimSpace(s)
    ensures forall c | c in TrimSpace(s) :: c in s
  {
    TrimSpec(s, IsSpace);
    TrimSpec(TrimSpace(s), IsSpace);
  }

  // ---- Splitting and joining ----

  function Split(s: string, sep: char): (parts: seq<string>)
    ensures parts != []
  {
    if s == [] then [[]]
    else
      var rest := Split(s[1..], sep);
      if s[0] == sep then [[]] + rest else [[s[0]] + rest[0]] + rest[1..]
  }

  function Join(parts: seq<string>, sep: char): string {
    if parts == [] then []
    else if |parts| == 1 then parts[0]
    else parts[0] + [sep] + Join(parts[1..], sep)
  }

  ghost predicate Free(parts: seq<string>, sep: char) {
    forall p | p in parts :: sep !in p
  }

  lemma {:induction false} SplitIsFree(s: string, sep: char)
    ensures Free(Split(s, sep), sep)
  {
    if s != [] {
      SplitIsFree(s[1..], sep);
      var rest := Split(s[1..], sep);
      forall p | p in Split(s, sep) ensures sep !in p {
        assert rest[0] in rest;
      }
    }
  }

  lemma {:induction false} SplitHead(p: string, rest: string, sep: char)
    requires sep !in p
    ensures Split(p, sep) == [p]
    ensures Split(p + [sep] + rest, sep) == [p] + Split(rest, sep)
  {
    var s := p + [sep] + rest;
    if p == [] {
      assert s[1..] == rest;
    } else {
      assert p == [p[0]] + p[1..];
      SplitHead(p[1..], rest, sep);
      assert s[1..] == p[1..] + [sep] + rest;
    }
  }

  /** Splitting undoes joining when no part contains the separator. */
  lemma {:induction false} SplitJoin(parts: seq<string>, sep: char)
    requires parts != [] && Free(parts, sep)
    ensures Split(Join(parts, sep), sep) == parts
  {
    if |parts| == 1 {
      SplitHead(parts[0], [], sep);
    } else {
      SplitJoin(parts[1..], sep);
      SplitHead(parts[0], Join(parts[1..], sep), sep);
    }
  }

  lemma JoinCons(first: string, rest: seq<string>, sep: char)
    requires rest != []
    ensures Join([first] + rest, sep) == first + [sep] + Join(rest, sep)
  {
    assert ([first] + rest)[1..] == rest;
  }

  lemma JoinGrowsHead(c: char, rest: seq<string>, sep: char)
    requires rest != []
    ensures Join([[c] + rest[0]] + rest[1..], sep) == [c] + Join(rest, sep)
  {
    if |rest| == 1 {
      assert [[c] + rest[0]] + rest[1..] == [[c] + rest[0]];
    } else {
      JoinCons([c] + rest[0], rest[1..], sep);
      assert [c] + rest[0] + [sep] + Join(rest[1..], sep) == [c] + (rest[0] + [sep] + Join(rest[1..], sep));
    }
  }

  /** Joining undoes splitting. */
  lemma {:induction false} JoinSplit(s: string, sep: char)
    ensures Join(Split(s, sep), sep) == s
  {
    if s != [] {
      JoinSplit(s[1..], sep);
      var rest := Split(s[1..], sep);
      if s[0] == sep {
        JoinCons([], rest, sep);
      } else {
        JoinGrowsHead(s[0], rest, sep);
      }
      assert s == [s[0]] + s[1..];
    }
  }

  lemma {:induction false} JoinAppend(a: seq<string>, b: seq<string>, sep: char)
    requires a != [] && b != []
    ensures Join(a + b, sep) == Join(a, sep) + [sep] + Join(b, sep)
  {
    if |a| == 1 {
      assert a + b == [a[0]] + b;
      JoinCons(a[0], b, sep);
    } else {
      JoinAppend(a[1..], b, sep);
      assert a + b == [a[0]] + (a[1..] + b) && a == [a[0]] + a[1..];
      JoinCons(a[0], a[1..] + b, sep);
      JoinCons(a[0], a[1..], sep);
      Reassociate(a[0] + [sep], Join(a[1..], sep), [sep] + Join(b, sep));
    }
  }

  lemma Reassociate<T>(x: seq<T>, y: seq<T>, z: seq<T>)
    ensures x + (y + z) == x + y + z
  {}

  lemma SplitConcat(a: string, b: string, sep: char)
    ensures Split(a + [sep] + b, sep) == Split(a, sep) + Split(b, sep)
  {
    SplitIsFree(a, sep);
    SplitIsFree(b, sep);
    JoinSplit(a, sep);
    JoinSplit(b, sep);
    JoinAppend(Split(a, sep), Split(b, sep), sep);
    SplitJoin(Split(a, sep) + Split(b, sep), sep);
  }

  lemma JoinStarts(parts: seq<string>, sep: char)
    requires parts != []
    ensures parts[0] <= Join(parts, sep)
  {}

  /** The first and last characters of a joined string come from the first and last part. */
  lemma {:induction false} JoinEnds(parts: seq<string>, sep: char)
    requires parts != []
    ensures parts[0] != [] ==> Join(parts, sep) != [] && Join(parts, sep)[0] == parts[0][0]
    ensures var last := parts[|parts| - 1];
            last != [] ==> Join(parts, sep) != [] && Join(parts, sep)[|Join(parts, sep)| - 1] == last[|last| - 1]
  {
    if |parts| > 1 { JoinEnds(parts[1..], sep); }
  }

  // ---- Counting separators ----

  function Is(sep: char): char -> bool {
    (c: char) => c == sep
  }

  function Count(s: string, sep: char): nat {
    if s == [] then 0 else (if s[0] == sep then 1 else 0) + Count(s[1..], sep)
  }

  lemma {:induction false} CountAppend(s: string, t: string, sep: char)
    ensures Count(s + t, sep) == Count(s, sep) + Count(t, sep)
  {
    if s == [] {
      assert s + t == t;
    } else {
      CountAppend(s[1..], t, sep);
      assert (s + t)[1..] == s[1..] + t;
    }
  }

  lemma {:induction false} CountAtMost(s: string, sep: char)
    ensures Count(s, sep) <= |s| && (Count(s, sep) == |s| ==> forall c | c in s :: c == sep)
  {
    if s != [] {
      CountAtMost(s[1..], sep);
      assert s == [s[0]] + s[1..];
    }
  }

  lemma {:induction false} SplitLength(s: string, sep: char)
    ensures |Split(s, sep)| == 1 + Count(s, sep)
  {
    if s != [] { SplitLength(s[1..], sep); }
  }

  lemma {:induction false} TrimLeftCount(s: string, sep: char)
    ensures |s| - |TrimLeft(s, Is(sep))| == Count(s, sep) - Count(TrimLeft(s, Is(sep)), sep)
  {
    if s != [] && s[0] == sep { TrimLeftCount(s[1..], sep); }
  }

  lemma {:induction false} TrimRightCount(s: string, sep: char)
    ensures |s| - |TrimRight(s, Is(sep))| == Count(s, sep) - Count(TrimRight(s, Is(sep)), sep)
  {
    if s != [] && s[|s| - 1] == sep {
      TrimRightCount(s[..|s| - 1], sep);
      CountAppend(s[..|s| - 1], [sep], sep);
      assert s == s[..|s| - 1] + [sep];
    }
  }

  /** Only a string of separators is trimmed to nothing. */
  lemma TrimToNothing(s: string, sep: char)
    requires Trim(s, Is(sep)) == []
    ensures forall c | c in s :: c == sep
  {
    TrimLeftCount(s, sep);
    TrimRightCount(TrimLeft(s, Is(sep)), sep);
    CountAtMost(s, sep);
  }

  /** Trimming separators off a string loses one part per separator trimmed. */
  lemma SplitTrimLength(s: string, sep: char)
    ensures |Split(s, sep)| - |Split(Trim(s, Is(sep)), sep)| == |s| - |Trim(s, Is(sep))|
    ensures Trim(s, Is(sep)) == s <==> Trimmed(s, Is(sep))
  {
    TrimLeftCount(s, sep);
    TrimRightCount(TrimLeft(s, Is(sep)), sep);
    SplitLength(s, sep);
    SplitLength(Trim(s, Is(sep)), sep);
    TrimSpec(s, Is(sep));
  }

  lemma {:induction false} TrimLeftKeepsParts(s: string, sep: char, x: string)
    requires x != [] && x in Split(s, sep)
    ensures x in Split(TrimLeft(s, Is(sep)), sep)
  {
    if s != [] && s[0] == sep { TrimLeftKeepsParts(s[1..], sep, x); }
  }

  lemma {:induction false} TrimRightKeepsParts(s: string, sep: char, x: string)
    requires x != [] && x in Split(s, sep)
    ensures x in Split(TrimRight(s, Is(sep)), sep)
  {
    if s != [] && s[|s| - 1] == sep {
      var front := s[..|s| - 1];
      SplitConcat(front, [], sep);
      assert s == front + [sep] + [];
      assert Split([], sep) == [[]];
      TrimRightKeepsParts(front, sep, x);
    }
  }

  /** Trimming separators off a string loses empty parts only. */
  lemma TrimKeepsParts(s: string, sep: char, x: string)
    requires x != [] && x in Split(s, sep)
    ensures x in Split(Trim(s, Is(sep)), sep)
  {
    TrimLeftKeepsParts(s, sep, x);
    TrimRightKeepsParts(TrimLeft(s, Is(sep)), sep, x);
  }
}
