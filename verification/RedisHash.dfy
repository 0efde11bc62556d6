/**
Objects kept as Redis hashes (common/redis.go): a struct is written field by field as strings and
read back by the types of its fields. `int` and `int64` are both 64 bits wide. The text of a value
of an unsupported type and the parser of timestamps are inputs.
*/
module RedisHash {

  import opened Base

  datatype Scalar = Str(s: string) | Num(i: int) | Flag(b: bool) | Unsupported(text: string)

  /** A field holds a scalar, a pointer to one, or a soft-delete timestamp. `zero` is the scalar a
      new pointer of this type points to. */
  datatype Value = Plain(v: Scalar) | Pointer(zero: Scalar, target: Option<Scalar>) | DeletedAt(at: Option<string>)

  datatype Field = Field(name: string, value: Value)

  type Hash = map<string, string>

  type TimeParser = string -> Option<string>

  // ---- Decimal numbers ----

  const MIN := -0x8000_0000_0000_0000
  const MAX := 0x7FFF_FFFF_FFFF_FFFF

  function Digit(d: nat): char
    requires d < 10
  {
    '0' + d as char
  }

  predicate IsDigit(c: char) {
    '0' <= c <= '9'
  }

  function Digits(n: nat): string {
    if n < 10 then [Digit(n)] else Digits(n / 10) + [Digit(n % 10)]
  }

  /** fmt.Sprintf("%v") of an integer. */
  function Print(i: int): string {
    if i < 0 then "-" + Digits(-i) else Digits(i)
  }

  predicate AllDigits(s: string) {
    forall c | c in s :: IsDigit(c)
  }

  function Magnitude(s: string): nat
    requires AllDigits(s)
  {
    if s == [] then 0
    else
      assert s[|s| - 1] in s;
      Magnitude(s[..|s| - 1]) * 10 + (s[|s| - 1] as int - '0' as int)
  }

  /** strconv.ParseInt(s, 10, 64). */
  function ParseInt(s: string): Option<int> {
    var signed := s != [] && (s[0] == '-' || s[0] == '+');
    var digits := if signed then s[1..] else s;
    if digits == [] || !AllDigits(digits) then None
    else
      var i: int := if signed && s[0] == '-' then 0 - Magnitude(digits) else Magnitude(digits);
      if MIN <= i <= MAX then Some(i) else None
  }

  lemma {:induction false} DigitsSpec(n: nat)
    ensures Digits(n) != [] && AllDigits(Digits(n)) && Magnitude(Digits(n)) == n
  {
    if n >= 10 {
      DigitsSpec(n / 10);
      var s := Digits(n);
      assert s[..|s| - 1] == Digits(n / 10);
    }
  }

  lemma ParseDigits(digits: string)
    requires digits != [] && AllDigits(digits)
    ensures ParseInt(digits) == if Magnitude(digits) <= MAX then Some(Magnitude(digits)) else None
    ensures ParseInt("+" + digits) == ParseInt(digits)
    ensures ParseInt("-" + digits) == if 0 - Magnitude(digits) >= MIN then Some(0 - Magnitude(digits)) else None
  {
    assert digits[0] in digits;
    assert ("-" + digits)[1..] == digits && ("+" + digits)[1..] == digits;
  }

  /** Parsing undoes printing exactly on the 64-bit integers. */
  lemma ParsePrint(i: int)
    ensures ParseInt(Print(i)) == if MIN <= i <= MAX then Some(i) else None
  {
    var n := if i < 0 then -i else i;
    DigitsSpec(n);
    ParseDigits(Digits(n));
  }

  function FormatBool(b: bool): string {
    if b then "true" else "false"
  }

  /** strconv.ParseBool. */
  function ParseBool(s: string): Option<bool> {
    if s in {"1", "t", "T", "TRUE", "true", "True"} then Some(true)
    else if s in {"0", "f", "F", "FALSE", "false", "False"} then Some(false)
    else None
  }

  // ---- Writing ----

  function Format(v: Scalar): string {
    match v
    case Str(s) => s
    case Num(i) => Print(i)
    case Flag(b) => FormatBool(b)
    case Unsupported(text) => text
  }

  function FormatValue(v: Value): string
    requires !v.DeletedAt?
  {
    match v
    case Plain(s) => Format(s)
    case Pointer(_, target) => if target.None? then "" else Format(target.value)
  }

  function Written(obj: seq<Field>, n: nat): Hash
    requires n <= |obj|
  {
    if n == 0 then map[]
    else if obj[n - 1].value.DeletedAt? then Written(obj, n - 1)
    else Written(obj, n - 1)[obj[n - 1].name := FormatValue(obj[n - 1].value)]
  }

  /** RedisHSetObj on the hash stored under the key; setting no field at all is an error. */
  method HSetObj(before: Hash, obj: seq<Field>) returns (hash: Option<Hash>)
    ensures hash == Stored(before, obj)
  {
    var data: Hash := map[];
    for i := 0 to |obj|
      invariant data == Written(obj, i)
    {
      var value := obj[i].value;
      if value.DeletedAt? { continue; }
      if value.Pointer? && value.target.None? {
        data := data[obj[i].name := ""];
        continue;
      }
      var scalar := if value.Pointer? then value.target.value else value.v;
      if scalar.Flag? {
        data := data[obj[i].name := FormatBool(scalar.b)];
        continue;
      }
      data := data[obj[i].name := Format(scalar)];
    }
    hash := if |data| == 0 then None else Some(before + data);
  }

  function Stored(before: Hash, obj: seq<Field>): Option<Hash> {
    if |Written(obj, |obj|)| == 0 then None else Some(before + Written(obj, |obj|))
  }

  // ---- Reading ----

  function ParseScalar(kind: Scalar, text: string): Option<Scalar> {
    match kind
    case Str(_) => Some(Str(text))
    case Num(_) => if ParseInt(text).Some? then Some(Num(ParseInt(text).value)) else None
    case Flag(_) => if ParseBool(text).Some? then Some(Flag(ParseBool(text).value)) else None
    case Unsupported(_) => None
  }

  function ReadField(hash: Hash, f: Field, parseTime: TimeParser): Option<Field> {
    if f.name !in hash then Some(f)
    else
      var text := hash[f.name];
      match f.value
      case Plain(v) =>
        var parsed := ParseScalar(v, text);
        if parsed.Some? then Some(f.(value := Plain(parsed.value))) else None
      case Pointer(zero, target) =>
        if text == "" then Some(f)
        else
          var parsed := ParseScalar(zero, text);
          if parsed.Some? then Some(f.(value := Pointer(zero, Some(parsed.value)))) else None
      case DeletedAt(at) =>
        if text == "" then Some(f)
        else if parseTime(text).Some? then Some(f.(value := DeletedAt(Some(parseTime(text).value)))) else None
  }

  function ReadBack(hash: Hash, obj: seq<Field>, n: nat, parseTime: TimeParser): Option<seq<Field>>
    requires n <= |obj|
  {
    if n == 0 then Some([])
    else
      var before, field := ReadBack(hash, obj, n - 1, parseTime), ReadField(hash, obj[n - 1], parseTime);
      if before.Some? && field.Some? then Some(before.value + [field.value]) else None
  }

  lemma {:induction false} ReadBackFails(hash: Hash, obj: seq<Field>, n: nat, parseTime: TimeParser, i: nat)
    requires i < n <= |obj| && ReadField(hash, obj[i], parseTime).None?
    ensures ReadBack(hash, obj, n, parseTime).None?
  {
    if i < n - 1 { ReadBackFails(hash, obj, n - 1, parseTime, i); }
  }

  /** A nil pointer whose text does not parse has been given its zero target by then. */
  function Touched(hash: Hash, f: Field): Field {
    if f.name in hash && hash[f.name] != "" && f.value.Pointer? && f.value.target.None?
    then f.(value := Pointer(f.value.zero, Some(f.value.zero))) else f
  }

  /** What is left behind when field `i` is the first that cannot be parsed. */
  ghost predicate StoppedAt(hash: Hash, obj: seq<Field>, left: seq<Field>, parseTime: TimeParser, i: nat) {
    && i < |obj| && ReadField(hash, obj[i], parseTime).None? && ReadBack(hash, obj, i, parseTime).Some?
    && left == ReadBack(hash, obj, i, parseTime).value + [Touched(hash, obj[i])] + obj[i + 1..]
  }

  /** RedisHGetObj: the fields found are overwritten one by one; an error leaves the object with
      the fields before it overwritten and those after it as they were. */
  method HGetObj(hash: Hash, obj: seq<Field>, parseTime: TimeParser) returns (ok: bool, left: seq<Field>)
    ensures hash == map[] ==> !ok && left == obj
    ensures hash != map[] ==> ok == ReadBack(hash, obj, |obj|, parseTime).Some?
    ensures ok ==> left == ReadBack(hash, obj, |obj|, parseTime).value
    ensures hash != map[] && !ok ==> exists i :: StoppedAt(hash, obj, left, parseTime, i)
  {
    if |hash| == 0 { return false, obj; }
    var fields := [];
    for i := 0 to |obj|
      invariant ReadBack(hash, obj, i, parseTime) == Some(fields)
    {
      var field := ReadField(hash, obj[i], parseTime);
      if field.None? {
        ReadBackFails(hash, obj, |obj|, parseTime, i);
        left := fields + [Touched(hash, obj[i])] + obj[i + 1..];
        assert StoppedAt(hash, obj, left, parseTime, i);
        return false, left;
      }
      fields := fields + [field.value];
    }
    ok, left := true, fields;
  }

  // ---- The round trip ----

  function ZeroScalar(v: Scalar): Scalar {
    match v case Str(_) => Str("") case Num(_) => Num(0) case Flag(_) => Flag(false) case Unsupported(_) => Unsupported("")
  }

  function ZeroValue(v: Value): Value {
    match v case Plain(s) => Plain(ZeroScalar(s)) case Pointer(zero, _) => Pointer(zero, None) case DeletedAt(_) => DeletedAt(None)
  }

  /** The zero struct of the same type. */
  function Zeroed(obj: seq<Field>): seq<Field> {
    seq(|obj|, i requires 0 <= i < |obj| => obj[i].(value := ZeroValue(obj[i].value)))
  }

  predicate SameKind(a: Scalar, b: Scalar) {
    a.Str? == b.Str? && a.Num? == b.Num? && a.Flag? == b.Flag? && a.Unsupported? == b.Unsupported?
  }

  /** What the types guarantee: integers fit, pointers point to their type, names are distinct. */
  ghost predicate IsStruct(obj: seq<Field>) {
    && (forall i, j :: 0 <= i < j < |obj| ==> obj[i].name != obj[j].name)
    && (forall f | f in obj :: WellTyped(f.value))
  }

  predicate InRange(v: Scalar) {
    v.Num? ==> MIN <= v.i <= MAX
  }

  predicate WellTyped(v: Value) {
    && (v.Plain? ==> InRange(v.v))
    && (v.Pointer? && v.target.Some? ==> InRange(v.target.value) && SameKind(v.target.value, v.zero))
  }

  /** The value comes back: it is of a supported type or a nil pointer, not a pointer to the empty
      string, and not a set deletion time. */
  predicate Returns(v: Value) {
    match v
    case Plain(s) => !s.Unsupported?
    case Pointer(_, target) => target.Some? ==> !target.value.Unsupported? && target.value != Str("")
    case DeletedAt(at) => at.None?
  }

  lemma ScalarRoundTrip(kind: Scalar, v: Scalar)
    requires InRange(v) && SameKind(kind, v)
    ensures ParseScalar(kind, Format(v)) == if v.Unsupported? then None else Some(v)
    ensures Format(v) == "" ==> v == Str("") || v.Unsupported?
  {
    if v.Num? {
      ParsePrint(v.i);
      DigitsSpec(if v.i < 0 then -v.i else v.i);
    }
  }

  /** One field comes back exactly when its value does. */
  lemma FieldRoundTripIff(hash: Hash, f: Field, parseTime: TimeParser)
    requires WellTyped(f.value)
    requires if f.value.DeletedAt? then f.name !in hash else f.name in hash && hash[f.name] == FormatValue(f.value)
    ensures ReadField(hash, f.(value := ZeroValue(f.value)), parseTime) == Some(f) <==> Returns(f.value)
  {
    match f.value {
      case Plain(v) => ScalarRoundTrip(ZeroScalar(v), v);
      case Pointer(zero, target) =>
        if target.Some? { ScalarRoundTrip(zero, target.value); }
      case DeletedAt(at) =>
    }
  }

  lemma {:induction false} WrittenAt(obj: seq<Field>, n: nat, i: nat)
    requires IsStruct(obj) && n <= |obj| && i < |obj|
    ensures obj[i].name in Written(obj, n) <==> i < n && !obj[i].value.DeletedAt?
    ensures obj[i].name in Written(obj, n) ==> Written(obj, n)[obj[i].name] == FormatValue(obj[i].value)
  {
    if n > 0 { WrittenAt(obj, n - 1, i); }
  }

  lemma {:induction false} ReadBackIff(hash: Hash, obj: seq<Field>, n: nat, parseTime: TimeParser)
    requires n <= |obj|
    requires forall i | 0 <= i < n :: ReadField(hash, Zeroed(obj)[i], parseTime) == Some(obj[i]) <==> Returns(obj[i].value)
    ensures ReadBack(hash, Zeroed(obj), n, parseTime) == Some(obj[..n]) <==> forall i | 0 <= i < n :: Returns(obj[i].value)
  {
    if n > 0 {
      ReadBackIff(hash, obj, n - 1, parseTime);
      var before, field := ReadBack(hash, Zeroed(obj), n - 1, parseTime), ReadField(hash, Zeroed(obj)[n - 1], parseTime);
      assert obj[..n] == obj[..n - 1] + [obj[n - 1]];
      if before.Some? && field.Some? { LastsAndFronts(before.value, field.value, obj[..n - 1], obj[n - 1]); }
    }
  }

  lemma LastsAndFronts<T>(s: seq<T>, a: T, t: seq<T>, b: T)
    ensures s + [a] == t + [b] <==> s == t && a == b
  {
    if s + [a] == t + [b] {
      assert |s + [a]| == |t + [b]|;
      assert (s + [a])[|s|] == (t + [b])[|t|];
      assert (s + [a])[..|s|] == s && (t + [b])[..|t|] == t;
    }
  }

  lemma FieldsRoundTrip(before: Hash, obj: seq<Field>, parseTime: TimeParser, i: nat)
    requires IsStruct(obj) && (forall f | f in obj && f.value.DeletedAt? :: f.name !in before) && i < |obj|
    ensures ReadField(before + Written(obj, |obj|), Zeroed(obj)[i], parseTime) == Some(obj[i]) <==> Returns(obj[i].value)
  {
    WrittenAt(obj, |obj|, i);
    assert obj[i] in obj;
    FieldRoundTripIff(before + Written(obj, |obj|), obj[i], parseTime);
  }

  ghost predicate ComesBack(before: Hash, obj: seq<Field>, parseTime: TimeParser) {
    && Stored(before, obj).Some? && Stored(before, obj).value != map[]
    && ReadBack(Stored(before, obj).value, Zeroed(obj), |obj|, parseTime) == Some(obj)
  }

  lemma ReadsBackIff(before: Hash, obj: seq<Field>, parseTime: TimeParser)
    requires IsStruct(obj) && forall f | f in obj && f.value.DeletedAt? :: f.name !in before
    ensures ReadBack(before + Written(obj, |obj|), Zeroed(obj), |obj|, parseTime) == Some(obj) <==>
            forall i | 0 <= i < |obj| :: Returns(obj[i].value)
  {
    forall i | 0 <= i < |obj|
      ensures ReadField(before + Written(obj, |obj|), Zeroed(obj)[i], parseTime) == Some(obj[i]) <==> Returns(obj[i].value)
    {
      FieldsRoundTrip(before, obj, parseTime, i);
    }
    ReadBackIff(before + Written(obj, |obj|), obj, |obj|, parseTime);
    assert obj[..|obj|] == obj;
  }

  lemma NothingLost(before: Hash, data: Hash)
    requires data != map[]
    ensures before + data != map[]
  {
    var k :| k in data;
    assert k in before + data;
  }

  /** Writing a struct and reading it into a zero one returns it exactly when something is written
      and every field's value returns; the key may have held any hash without a deletion time. */
  lemma RoundTripIff(before: Hash, obj: seq<Field>, parseTime: TimeParser)
    requires IsStruct(obj) && forall f | f in obj && f.value.DeletedAt? :: f.name !in before
    ensures ComesBack(before, obj, parseTime) <==>
            (exists i :: 0 <= i < |obj| && !obj[i].value.DeletedAt?) && (forall i | 0 <= i < |obj| :: Returns(obj[i].value))
  {
    SomethingWritten(obj, |obj|);
    if Written(obj, |obj|) != map[] {
      NothingLost(before, Written(obj, |obj|));
      ReadsBackIff(before, obj, parseTime);
    }
  }

  lemma {:induction false} SomethingWritten(obj: seq<Field>, n: nat)
    requires n <= |obj|
    ensures Written(obj, n) != map[] <==> exists i :: 0 <= i < n && !obj[i].value.DeletedAt?
  {
    if n > 0 {
      SomethingWritten(obj, n - 1);
      if !obj[n - 1].value.DeletedAt? { assert obj[n - 1].name in Written(obj, n); }
    }
  }

  /** The exception among supported types: a pointer to the empty string comes back as nil. */
  lemma EmptyStringPointerBecomesNil(before: Hash, name: string, parseTime: TimeParser)
    ensures var obj := [Field(name, Pointer(Str(""), Some(Str(""))))];
            Stored(before, obj).Some? &&
            ReadBack(Stored(before, obj).value, Zeroed(obj), 1, parseTime) == Some([Field(name, Pointer(Str(""), None))])
  {
    var obj := [Field(name, Pointer(Str(""), Some(Str(""))))];
    assert Written(obj, 1) == Written(obj, 0)[name := ""];
    assert name in Written(obj, 1);
    var hash := before + Written(obj, 1);
    var zero := Zeroed(obj);
    assert zero[0] == Field(name, Pointer(Str(""), None)) && ReadField(hash, zero[0], parseTime) == Some(zero[0]);
    assert ReadBack(hash, zero, 0, parseTime) == Some([]);
    assert [] + [zero[0]] == [zero[0]];
  }

  // ---- Reading, told from the stored text ----

  /** A field is read by its own type: a text as it is, an empty text into no pointer and no time, a
      time by the parser; a field that is not stored stays. */
  lemma FieldIsRead(hash: Hash, f: Field, parseTime: TimeParser)
    ensures f.name !in hash ==> ReadField(hash, f, parseTime) == Some(f)
    ensures f.name in hash && hash[f.name] == "" && !f.value.Plain? ==> ReadField(hash, f, parseTime) == Some(f)
    ensures f.name in hash && f.value.Plain? && f.value.v.Str? ==>
              ReadField(hash, f, parseTime) == Some(Field(f.name, Plain(Str(hash[f.name]))))
    ensures f.name in hash && hash[f.name] != "" && f.value.Pointer? && f.value.zero.Str? ==>
              ReadField(hash, f, parseTime) == Some(Field(f.name, Pointer(f.value.zero, Some(Str(hash[f.name])))))
    ensures f.name in hash && hash[f.name] != "" && f.value.DeletedAt? ==>
              match parseTime(hash[f.name])
              case Some(t) => ReadField(hash, f, parseTime) == Some(Field(f.name, DeletedAt(Some(t))))
              case None => ReadField(hash, f, parseTime) == None
  {}

  lemma {:induction false} ReadBackAt(hash: Hash, obj: seq<Field>, n: nat, parseTime: TimeParser, i: nat)
    requires i < n <= |obj| && ReadBack(hash, obj, n, parseTime).Some?
    ensures |ReadBack(hash, obj, n, parseTime).value| == n
    ensures ReadField(hash, obj[i], parseTime) == Some(ReadBack(hash, obj, n, parseTime).value[i])
  {
    if n > 1 { ReadBackAt(hash, obj, n - 1, parseTime, if i < n - 1 then i else 0); }
  }

  /** An object left behind by an error at field `i`: the fields before it are read, those after it
      are as they were, and so is this one, except that a nil pointer now points to a zero. */
  lemma LeftBehind(hash: Hash, obj: seq<Field>, left: seq<Field>, parseTime: TimeParser, i: nat, k: nat)
    requires StoppedAt(hash, obj, left, parseTime, i) && k < |obj|
    ensures |left| == |obj|
    ensures k < i ==> ReadField(hash, obj[k], parseTime) == Some(left[k])
    ensures k > i ==> left[k] == obj[k]
    ensures k == i ==> left[k] == if obj[k].value.Pointer? && obj[k].value.target.None?
                                  then Field(obj[k].name, Pointer(obj[k].value.zero, Some(obj[k].value.zero))) else obj[k]
  {
    if i > 0 { ReadBackAt(hash, obj, i, parseTime, if k < i then k else 0); }
  }
}
