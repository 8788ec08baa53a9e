/** Conversion between dynamic values and their protobuf messages (`convert_dynamic_value.rs`, `time.rs`). */
module DynamicValue {
  import opened Outcomes
  import opened Bytes

  const I64_MIN: int := -0x8000_0000_0000_0000
  const I32_MAX: int := 0x7FFF_FFFF
  const MICROS: int := 1_000_000

  type Word = n: int | 0 <= n <= U64_MAX
  type Signed64 = n: int | I64_MIN <= n <= I64_MAX
  type Signed32 = n: int | -I32_MAX - 1 <= n <= I32_MAX

  /** A double is carried unread, as its bits. The entries of a map are listed in the order of their keys. */
  datatype Value =
    | StringV(s: string)
    | F64(bits: Word)
    | U64(u: Word)
    | I64(i: Signed64)
    | Bool(b: bool)
    | Timestamp(t: Word)
    | Duration(d: Word)
    | BytesV(bytes: Bytes)
    | List(items: seq<Value>)
    | Map(entries: seq<Entry>)

  datatype Entry = Entry(key: string, value: Value)

  /** `google.protobuf.Timestamp` and `google.protobuf.Duration`. */
  datatype ProtoTime = ProtoTime(seconds: Signed64, nanos: Signed32)

  datatype ProtoValue =
    | StringValue(s: string)
    | DoubleValue(bits: Word)
    | UintValue(u: Word)
    | IntValue(i: Signed64)
    | BoolValue(b: bool)
    | BytesValue(bytes: Bytes)
    | DurationValue(d: ProtoTime)
    | TimestampValue(t: ProtoTime)
    | ListValue(elements: seq<Proto>)
    | MapValue(items: seq<MapItem>)

  datatype Proto = Proto(value: Option<ProtoValue>)

  datatype MapItem = MapItem(key: Option<string>, value: Option<Proto>)

  datatype ConversionError =
    | MissingValue | MissingKey | MissingItemValue | DuplicateKey
    | SecondsOverflow | NegativeSeconds | NegativeNanos | SumOverflow

  datatype Conversion<+T> = Converted(value: T) | Refused(error: ConversionError) {
    function Then<U>(f: T -> U): Conversion<U> {
      match this
      case Converted(value) => Converted(f(value))
      case Refused(error) => Refused(error)
    }
  }

  // ----- Times -----

  /** Division that truncates toward zero. */
  function Quotient(n: int, d: int): int
    requires d > 0
  {
    if n >= 0 then n / d else -(-n / d)
  }

  function ToTime(us: Word): ProtoTime {
    ProtoTime(us / MICROS, us % MICROS * 1000)
  }

  function FromTime(t: ProtoTime): Conversion<Word> {
    var seconds, nanos := t.seconds * MICROS, Quotient(t.nanos, 1000);
    if seconds < I64_MIN || seconds > I64_MAX then Refused(SecondsOverflow)
    else if seconds < 0 then Refused(NegativeSeconds)
    else if nanos < 0 then Refused(NegativeNanos)
    else if seconds + nanos > U64_MAX then Refused(SumOverflow)
    else Converted(seconds + nanos)
  }

  /** The whole seconds of `us`, in microseconds, fit a signed 64-bit number. */
  predicate Fits(us: Word) {
    us / MICROS * MICROS <= I64_MAX
  }

  /** A time survives the trip exactly when its whole seconds fit. */
  lemma TimeRoundTrip(us: Word)
    ensures FromTime(ToTime(us)) == if Fits(us) then Converted(us) else Refused(SecondsOverflow)
  {
    assert us == us / MICROS * MICROS + us % MICROS;
  }

  /** Which times are read: the sum of the two parts never overflows, and a fraction that truncates to zero may be
      negative. */
  lemma TimeAccepted(t: ProtoTime)
    ensures FromTime(t).Converted? <==> 0 <= t.seconds <= I64_MAX / MICROS && t.nanos > -1000
    ensures FromTime(t).Converted? ==>
              FromTime(t).value == t.seconds * MICROS + (if t.nanos < 0 then 0 else t.nanos / 1000)
    ensures FromTime(t) != Refused(SumOverflow)
  {
  }

  /** Reading accepts times that, written again, are refused: `nanos` is not kept below one second. */
  lemma AcceptedTimeLost()
    ensures var t := ProtoTime(9_223_372_036_854, 2_000_000_000);
            FromTime(t).Converted? && FromTime(ToTime(FromTime(t).value)).Refused?
  {
  }

  /** Exactly which messages are the writing of what is read from them. */
  lemma TimeRewrite(t: ProtoTime)
    requires FromTime(t).Converted?
    ensures ToTime(FromTime(t).value) == t <==> 0 <= t.nanos < 1_000_000_000 && t.nanos % 1000 == 0
  {
  }

  // ----- Maps in key order -----

  /** Lexicographic order on keys. */
  predicate KeyLess(a: string, b: string) {
    b != [] && (a == [] || a[0] < b[0] || (a[0] == b[0] && KeyLess(a[1..], b[1..])))
  }

  /** `a` and `b` first differ at `i`, where `a` has ended or has the smaller character. */
  ghost predicate FirstDiffer(a: string, b: string, i: nat) {
    && i <= |a| && i < |b| && a[..i] == b[..i]
    && (i == |a| || a[i] < b[i])
  }

  /** The order of keys is the alphabetical one. */
  lemma {:induction false} KeyLessExactly(a: string, b: string)
    ensures KeyLess(a, b) <==> exists i :: FirstDiffer(a, b, i)
  {
    forall i: nat | FirstDiffer(a, b, i)
      ensures i == 0 || a[0] == b[0]
    {
      assert i > 0 ==> a[0] == a[..i][0] && b[0] == b[..i][0];
    }
    if a != [] && b != [] && a[0] == b[0] {
      KeyLessExactly(a[1..], b[1..]);
      if i: nat :| FirstDiffer(a[1..], b[1..], i) {
        assert a[..i + 1] == [a[0]] + a[1..][..i] && b[..i + 1] == [b[0]] + b[1..][..i];
        assert FirstDiffer(a, b, i + 1);
      }
      if i: nat :| FirstDiffer(a, b, i) {
        assert i > 0;
        assert a[1..][..i - 1] == a[..i][1..] && b[1..][..i - 1] == b[..i][1..];
        assert FirstDiffer(a[1..], b[1..], i - 1);
      }
    } else if a == [] || b == [] || a[0] < b[0] {
      if b != [] {
        assert a[..0] == b[..0];
        assert FirstDiffer(a, b, 0);
      }
    }
  }

  lemma {:induction false} KeyTransitive(a: string, b: string, c: string)
    requires KeyLess(a, b) && KeyLess(b, c)
    ensures KeyLess(a, c)
  {
    if a != [] && a[0] == b[0] && b[0] == c[0] {
      KeyTransitive(a[1..], b[1..], c[1..]);
    }
  }

  lemma {:induction false} KeyTotal(a: string, b: string)
    ensures a == b || KeyLess(a, b) || KeyLess(b, a)
  {
    if a != [] && b != [] && a[0] == b[0] {
      KeyTotal(a[1..], b[1..]);
      assert a == [a[0]] + a[1..] && b == [b[0]] + b[1..];
    }
  }

  lemma {:induction false} KeyIrreflexive(a: string)
    ensures !KeyLess(a, a)
  {
    if a != [] {
      KeyIrreflexive(a[1..]);
    }
  }

  ghost predicate Sorted(entries: seq<Entry>) {
    forall i, j :: 0 <= i < j < |entries| ==> KeyLess(entries[i].key, entries[j].key)
  }

  predicate HasKey(entries: seq<Entry>, key: string) {
    exists i :: 0 <= i < |entries| && entries[i].key == key
  }

  /** Insertion of a new key. */
  function Insert(entries: seq<Entry>, e: Entry): seq<Entry> {
    if entries == [] then [e]
    else
      var init, last := entries[..|entries| - 1], entries[|entries| - 1];
      if KeyLess(last.key, e.key) then entries + [e] else Insert(init, e) + [last]
  }

  lemma {:induction false} InsertKeeps(entries: seq<Entry>, e: Entry)
    ensures |Insert(entries, e)| == |entries| + 1
    ensures forall x :: x in Insert(entries, e) <==> x in entries || x == e
  {
    if entries != [] {
      var init, last := entries[..|entries| - 1], entries[|entries| - 1];
      assert entries == init + [last];
      InsertKeeps(init, e);
    }
  }

  lemma {:induction false} InsertSorts(entries: seq<Entry>, e: Entry)
    requires Sorted(entries) && !HasKey(entries, e.key)
    ensures Sorted(Insert(entries, e))
  {
    if entries != [] {
      var n := |entries| - 1;
      var init, last := entries[..n], entries[n];
      if KeyLess(last.key, e.key) {
        forall i | 0 <= i < n
          ensures KeyLess(entries[i].key, e.key)
        {
          KeyTransitive(entries[i].key, last.key, e.key);
        }
      } else {
        InsertSorts(init, e);
        InsertKeeps(init, e);
        KeyTotal(e.key, last.key);
        var r := Insert(init, e);
        forall i | 0 <= i < |r|
          ensures KeyLess(r[i].key, last.key)
        {
          assert r[i] in r;
        }
      }
    }
  }

  // ----- Writing -----

  /** A value that contains no other. */
  function ToScalar(v: Value): ProtoValue
    requires !v.List? && !v.Map?
  {
    match v
    case StringV(s) => StringValue(s)
    case F64(bits) => DoubleValue(bits)
    case U64(u) => UintValue(u)
    case I64(i) => IntValue(i)
    case Bool(b) => BoolValue(b)
    case Timestamp(t) => TimestampValue(ToTime(t))
    case Duration(d) => DurationValue(ToTime(d))
    case BytesV(bytes) => BytesValue(bytes)
  }

  function ToProto(v: Value): Proto
    decreases v
  {
    match v
    case List(items) => Proto(Some(ListValue(ToElements(items))))
    case Map(entries) => Proto(Some(MapValue(ToItems(entries))))
    case _ => Proto(Some(ToScalar(v)))
  }

  function ToElements(items: seq<Value>): seq<Proto>
    decreases items
  {
    if items == [] then [] else ToElements(items[..|items| - 1]) + [ToProto(items[|items| - 1])]
  }

  function ToItem(e: Entry): MapItem
    decreases e
  {
    MapItem(Some(e.key), Some(ToProto(e.value)))
  }

  function ToItems(entries: seq<Entry>): seq<MapItem>
    decreases entries
  {
    if entries == [] then [] else ToItems(entries[..|entries| - 1]) + [ToItem(entries[|entries| - 1])]
  }

  /** The conversion of a value, loops as in the source. */
  method WriteProto(v: Value) returns (p: Proto)
    ensures p == ToProto(v)
    decreases v
  {
    match v {
      case List(items) =>
        var elements := WriteList(items);
        return Proto(Some(ListValue(elements)));
      case Map(entries) =>
        var items := WriteMap(entries);
        return Proto(Some(MapValue(items)));
      case _ =>
        return Proto(Some(ToScalar(v)));
    }
  }

  method WriteList(items: seq<Value>) returns (elements: seq<Proto>)
    ensures elements == ToElements(items)
    decreases items, 0
  {
    elements := [];
    var i := 0;
    while i < |items|
      invariant 0 <= i <= |items| && elements == ToElements(items[..i])
    {
      assert items[..i + 1][..i] == items[..i];
      var p := WriteProto(items[i]);
      elements := elements + [p];
      i := i + 1;
    }
    assert items[..i] == items;
  }

  method WriteItem(e: Entry) returns (item: MapItem)
    ensures item == ToItem(e)
    decreases e
  {
    var p := WriteProto(e.value);
    return MapItem(Some(e.key), Some(p));
  }

  method WriteMap(entries: seq<Entry>) returns (items: seq<MapItem>)
    ensures items == ToItems(entries)
    decreases entries, 0
  {
    items := [];
    var i := 0;
    while i < |entries|
      invariant 0 <= i <= |entries| && items == ToItems(entries[..i])
    {
      assert entries[..i + 1][..i] == entries[..i];
      var item := WriteItem(entries[i]);
      items := items + [item];
      i := i + 1;
    }
    assert entries[..i] == entries;
  }

  // ----- Reading -----

  function FromScalar(value: ProtoValue): Conversion<Value>
    requires !value.ListValue? && !value.MapValue?
  {
    match value
    case StringValue(s) => Converted(StringV(s))
    case DoubleValue(bits) => Converted(F64(bits))
    case UintValue(u) => Converted(U64(u))
    case IntValue(i) => Converted(I64(i))
    case BoolValue(b) => Converted(Bool(b))
    case BytesValue(bytes) => Converted(BytesV(bytes))
    case DurationValue(d) => FromTime(d).Then((us: Word) => Duration(us))
    case TimestampValue(t) => FromTime(t).Then((us: Word) => Timestamp(us))
  }

  function FromProto(p: Proto): Conversion<Value>
    decreases p
  {
    match p.value
    case None => Refused(MissingValue)
    case Some(ListValue(elements)) => FromElements(elements).Then((vs: seq<Value>) => List(vs))
    case Some(MapValue(items)) => FromItems(items).Then((es: seq<Entry>) => Map(es))
    case Some(value) => FromScalar(value)
  }

  function FromElements(elements: seq<Proto>): Conversion<seq<Value>>
    decreases elements
  {
    if elements == [] then Converted([])
    else
      var init := FromElements(elements[..|elements| - 1]);
      if init.Refused? then init
      else
        var last := FromProto(elements[|elements| - 1]);
        if last.Refused? then Refused(last.error) else Converted(init.value + [last.value])
  }

  function FromItem(item: MapItem): Conversion<Entry>
    decreases item
  {
    if item.key.None? then Refused(MissingKey)
    else if item.value.None? then Refused(MissingItemValue)
    else
      var value := FromProto(item.value.value);
      if value.Refused? then Refused(value.error) else Converted(Entry(item.key.value, value.value))
  }

  function FromItems(items: seq<MapItem>): Conversion<seq<Entry>>
    decreases items
  {
    if items == [] then Converted([])
    else
      var init := FromItems(items[..|items| - 1]);
      if init.Refused? then init
      else
        var last := FromItem(items[|items| - 1]);
        if last.Refused? then Refused(last.error)
        else if HasKey(init.value, last.value.key) then Refused(DuplicateKey)
        else Converted(Insert(init.value, last.value))
  }

  /** The conversion of a message, loops and error returns as in the source. */
  method ConvertProto(p: Proto) returns (r: Conversion<Value>)
    ensures r == FromProto(p)
    decreases p
  {
    if p.value.None? {
      return Refused(MissingValue);
    }
    match p.value.value {
      case ListValue(elements) =>
        var list := ConvertList(elements);
        return list.Then((vs: seq<Value>) => List(vs));
      case MapValue(items) =>
        var entries := ConvertMap(items);
        return entries.Then((es: seq<Entry>) => Map(es));
      case _ =>
        return FromScalar(p.value.value);
    }
  }

  method ConvertList(elements: seq<Proto>) returns (r: Conversion<seq<Value>>)
    ensures r == FromElements(elements)
    decreases elements, 0
  {
    var output: seq<Value> := [];
    var i := 0;
    while i < |elements|
      invariant 0 <= i <= |elements| && FromElements(elements[..i]) == Converted(output)
    {
      assert elements[..i + 1][..i] == elements[..i];
      var value := ConvertProto(elements[i]);
      if value.Refused? {
        ElementsRefused(elements, i + 1);
        return Refused(value.error);
      }
      output := output + [value.value];
      i := i + 1;
    }
    assert elements[..i] == elements;
    return Converted(output);
  }

  method ConvertItem(item: MapItem) returns (r: Conversion<Entry>)
    ensures r == FromItem(item)
    decreases item
  {
    if item.key.None? {
      return Refused(MissingKey);
    }
    if item.value.None? {
      return Refused(MissingItemValue);
    }
    var value := ConvertProto(item.value.value);
    if value.Refused? {
      return Refused(value.error);
    }
    return Converted(Entry(item.key.value, value.value));
  }

  method ConvertMap(items: seq<MapItem>) returns (r: Conversion<seq<Entry>>)
    ensures r == FromItems(items)
    decreases items, 0
  {
    var output: seq<Entry> := [];
    var i := 0;
    while i < |items|
      invariant 0 <= i <= |items| && FromItems(items[..i]) == Converted(output)
    {
      assert items[..i + 1][..i] == items[..i];
      ItemsRefused(items, i + 1);
      var entry := ConvertItem(items[i]);
      if entry.Refused? {
        return Refused(entry.error);
      }
      if HasKey(output, entry.value.key) {
        return Refused(DuplicateKey);
      }
      output := Insert(output, entry.value);
      i := i + 1;
    }
    assert items[..i] == items;
    return Converted(output);
  }

  /** The first refusal decides. */
  lemma {:induction false} ElementsRefused(elements: seq<Proto>, n: nat)
    requires n <= |elements|
    ensures FromElements(elements[..n]).Refused? ==> FromElements(elements) == FromElements(elements[..n])
    decreases |elements|
  {
    if n == |elements| {
      assert elements[..n] == elements;
    } else {
      var init := elements[..|elements| - 1];
      ElementsRefused(init, n);
      assert init[..n] == elements[..n];
    }
  }

  lemma {:induction false} ItemsRefused(items: seq<MapItem>, n: nat)
    requires n <= |items|
    ensures FromItems(items[..n]).Refused? ==> FromItems(items) == FromItems(items[..n])
    decreases |items|
  {
    if n == |items| {
      assert items[..n] == items;
    } else {
      var init := items[..|items| - 1];
      ItemsRefused(init, n);
      assert init[..n] == items[..n];
    }
  }

  // ----- Round trip -----

  /** The entries of every contained map are in strict key order, as a `BTreeMap` keeps them. */
  ghost predicate Canonical(v: Value) {
    match v
    case List(items) => forall i :: 0 <= i < |items| ==> Canonical(items[i])
    case Map(entries) => Sorted(entries) && forall i :: 0 <= i < |entries| ==> Canonical(entries[i].value)
    case _ => true
  }

  /** Every contained time fits. */
  ghost predicate TimesFit(v: Value)
    decreases v
  {
    match v
    case Timestamp(t) => Fits(t)
    case Duration(d) => Fits(d)
    case List(items) => ListFits(items)
    case Map(entries) => EntriesFit(entries)
    case _ => true
  }

  ghost predicate ListFits(items: seq<Value>)
    decreases items
  {
    forall i :: 0 <= i < |items| ==> TimesFit(items[i])
  }

  ghost predicate EntriesFit(entries: seq<Entry>)
    decreases entries
  {
    forall i :: 0 <= i < |entries| ==> TimesFit(entries[i].value)
  }

  /** Exactly which values survive the round trip: those whose contained times, at any depth, all fit.
      Any other value is refused when it is read back. */
  lemma {:induction false} RoundTrip(v: Value)
    requires Canonical(v)
    ensures FromProto(ToProto(v)) == if TimesFit(v) then Converted(v) else Refused(SecondsOverflow)
    decreases v
  {
    match v
    case List(items) => ListRoundTrip(items);
    case Map(entries) => MapRoundTrip(entries);
    case _ => ScalarRoundTrip(v);
  }

  lemma {:induction false} ScalarRoundTrip(v: Value)
    requires !v.List? && !v.Map?
    ensures FromScalar(ToScalar(v)) == if TimesFit(v) then Converted(v) else Refused(SecondsOverflow)
  {
    match v
    case Timestamp(t) => TimeRoundTrip(t);
    case Duration(d) => TimeRoundTrip(d);
    case _ =>
  }

  lemma {:induction false} ListFitsLast(init: seq<Value>, last: Value)
    ensures ListFits(init + [last]) <==> ListFits(init) && TimesFit(last)
  {
    var items := init + [last];
    assert items[|init|] == last;
    assert forall i :: 0 <= i < |init| ==> items[i] == init[i];
  }

  lemma {:induction false} ElementsLast(init: seq<Proto>, last: Proto)
    ensures FromElements(init + [last]) ==
            if FromElements(init).Refused? then FromElements(init)
            else if FromProto(last).Refused? then Refused(FromProto(last).error)
            else Converted(FromElements(init).value + [FromProto(last).value])
  {
    assert (init + [last])[..|init|] == init;
  }

  lemma {:induction false} ListRoundTrip(items: seq<Value>)
    requires forall i :: 0 <= i < |items| ==> Canonical(items[i])
    ensures FromElements(ToElements(items)) == if ListFits(items) then Converted(items) else Refused(SecondsOverflow)
    decreases items
  {
    if items != [] {
      var n := |items| - 1;
      var init, last := items[..n], items[n];
      ListRoundTrip(init);
      RoundTrip(last);
      ElementsLast(ToElements(init), ToProto(last));
      assert items == init + [last];
      ListFitsLast(init, last);
    }
  }

  lemma {:induction false} EntriesFitLast(init: seq<Entry>, last: Entry)
    ensures EntriesFit(init + [last]) <==> EntriesFit(init) && TimesFit(last.value)
  {
    var entries := init + [last];
    assert entries[|init|] == last;
    assert forall i :: 0 <= i < |init| ==> entries[i] == init[i];
  }

  lemma {:induction false} ItemsLast(init: seq<MapItem>, last: MapItem)
    ensures FromItems(init + [last]) ==
            if FromItems(init).Refused? then FromItems(init)
            else if FromItem(last).Refused? then Refused(FromItem(last).error)
            else if HasKey(FromItems(init).value, FromItem(last).value.key) then Refused(DuplicateKey)
            else Converted(Insert(FromItems(init).value, FromItem(last).value))
  {
    assert (init + [last])[..|init|] == init;
  }

  lemma {:induction false} MapRoundTrip(entries: seq<Entry>)
    requires Sorted(entries) && forall i :: 0 <= i < |entries| ==> Canonical(entries[i].value)
    ensures FromItems(ToItems(entries)) == if EntriesFit(entries) then Converted(entries) else Refused(SecondsOverflow)
    decreases entries
  {
    if entries != [] {
      var n := |entries| - 1;
      var init, last := entries[..n], entries[n];
      MapRoundTrip(init);
      RoundTrip(last.value);
      ItemsLast(ToItems(init), ToItem(last));
      assert entries == init + [last];
      EntriesFitLast(init, last);
      LastIsNew(entries);
    }
  }

  /** The last of a sorted list is inserted behind the others. */
  lemma LastIsNew(entries: seq<Entry>)
    requires entries != [] && Sorted(entries)
    ensures var init, last := entries[..|entries| - 1], entries[|entries| - 1];
            !HasKey(init, last.key) && Insert(init, last) == entries
  {
    var n := |entries| - 1;
    var init, last := entries[..n], entries[n];
    KeyIrreflexive(last.key);
    assert entries == init + [last];
    if n > 0 {
      assert KeyLess(entries[n - 1].key, entries[n].key);
    }
  }

  // ----- Which messages are read -----

  predicate InRange(t: ProtoTime) {
    0 <= t.seconds <= I64_MAX / MICROS && t.nanos > -1000
  }

  predicate ScalarInRange(value: ProtoValue) {
    match value
    case DurationValue(d) => InRange(d)
    case TimestampValue(t) => InRange(t)
    case _ => true
  }

  ghost predicate Distinct(items: seq<MapItem>) {
    forall i, j :: 0 <= i < j < |items| ==> items[i].key != items[j].key
  }

  /** Well-formed at every depth: parts present, times in range, keys unique. */
  ghost predicate WellFormed(p: Proto)
    decreases p
  {
    match p.value
    case None => false
    case Some(ListValue(elements)) => ElementsWellFormed(elements)
    case Some(MapValue(items)) => Distinct(items) && ItemsWellFormed(items)
    case Some(value) => ScalarInRange(value)
  }

  ghost predicate ElementsWellFormed(elements: seq<Proto>)
    decreases elements
  {
    forall i :: 0 <= i < |elements| ==> WellFormed(elements[i])
  }

  ghost predicate ItemsWellFormed(items: seq<MapItem>)
    decreases items
  {
    forall i :: 0 <= i < |items| ==> WellFormedItem(items[i])
  }

  ghost predicate WellFormedItem(item: MapItem)
    decreases item
  {
    item.key.Some? && item.value.Some? && WellFormed(item.value.value)
  }

  /** A message is read exactly when it is well-formed. */
  lemma {:induction false} ReadIffWellFormed(p: Proto)
    ensures FromProto(p).Converted? <==> WellFormed(p)
    decreases p
  {
    match p.value
    case None =>
    case Some(ListValue(elements)) => ElementsRead(elements);
    case Some(MapValue(items)) => ItemsRead(items);
    case Some(value) => ScalarRead(value);
  }

  lemma ScalarRead(value: ProtoValue)
    requires !value.ListValue? && !value.MapValue?
    ensures FromScalar(value).Converted? <==> ScalarInRange(value)
  {
    match value
    case DurationValue(d) => TimeAccepted(d);
    case TimestampValue(t) => TimeAccepted(t);
    case _ =>
  }

  lemma {:induction false} ElementsWellFormedLast(init: seq<Proto>, last: Proto)
    ensures ElementsWellFormed(init + [last]) <==> ElementsWellFormed(init) && WellFormed(last)
  {
    var elements := init + [last];
    assert elements[|init|] == last;
    assert forall i :: 0 <= i < |init| ==> elements[i] == init[i];
  }

  lemma {:induction false} ElementsRead(elements: seq<Proto>)
    ensures FromElements(elements).Converted? <==> ElementsWellFormed(elements)
    decreases elements
  {
    if elements != [] {
      var init, last := elements[..|elements| - 1], elements[|elements| - 1];
      assert elements == init + [last];
      ElementsLast(init, last);
      ElementsRead(init);
      ReadIffWellFormed(last);
      ElementsWellFormedLast(init, last);
    }
  }

  lemma {:induction false} ItemRead(item: MapItem)
    ensures FromItem(item).Converted? <==> WellFormedItem(item)
    decreases item
  {
    if item.value.Some? {
      ReadIffWellFormed(item.value.value);
    }
  }

  lemma {:induction false} ItemsRead(items: seq<MapItem>)
    ensures FromItems(items).Converted? <==> Distinct(items) && ItemsWellFormed(items)
    decreases items
  {
    ReadingsOf(items);
    var rs := Readings(items);
    CollectAccepts(rs);
    forall i | 0 <= i < |items|
      ensures rs[i].Converted? <==> WellFormedItem(items[i])
    {
      ItemRead(items[i]);
    }
    if ItemsWellFormed(items) {
      DistinctReadings(items);
    }
  }

  // ----- What a map message is read as -----

  /** The readings of the items, in message order. */
  function Readings(items: seq<MapItem>): seq<Conversion<Entry>> {
    if items == [] then [] else Readings(items[..|items| - 1]) + [FromItem(items[|items| - 1])]
  }

  /** Insertion of the readings one after the other. */
  function Collect(rs: seq<Conversion<Entry>>): Conversion<seq<Entry>> {
    if rs == [] then Converted([])
    else
      var init, last := Collect(rs[..|rs| - 1]), rs[|rs| - 1];
      if init.Refused? then init
      else if last.Refused? then Refused(last.error)
      else if HasKey(init.value, last.value.key) then Refused(DuplicateKey)
      else Converted(Insert(init.value, last.value))
  }

  lemma {:induction false} ReadingsAt(items: seq<MapItem>)
    ensures |Readings(items)| == |items|
    ensures forall i :: 0 <= i < |items| ==> Readings(items)[i] == FromItem(items[i])
  {
    if items != [] {
      ReadingsAt(items[..|items| - 1]);
    }
  }

  lemma {:induction false} CollectLast(init: seq<Conversion<Entry>>, last: Conversion<Entry>)
    ensures Collect(init + [last]) ==
            if Collect(init).Refused? then Collect(init)
            else if last.Refused? then Refused(last.error)
            else if HasKey(Collect(init).value, last.value.key) then Refused(DuplicateKey)
            else Converted(Insert(Collect(init).value, last.value))
  {
    assert (init + [last])[..|init|] == init;
  }

  lemma {:induction false} ReadingsCollected(items: seq<MapItem>)
    ensures FromItems(items) == Collect(Readings(items))
  {
    if items != [] {
      var init, last := items[..|items| - 1], items[|items| - 1];
      assert items == init + [last];
      ReadingsCollected(init);
      ItemsLast(init, last);
      CollectLast(Readings(init), FromItem(last));
    }
  }

  lemma {:induction false} ReadingsOf(items: seq<MapItem>)
    ensures |Readings(items)| == |items|
    ensures forall i :: 0 <= i < |items| ==> Readings(items)[i] == FromItem(items[i])
    ensures FromItems(items) == Collect(Readings(items))
  {
    ReadingsAt(items);
    ReadingsCollected(items);
  }

  lemma {:induction false} DistinctReadings(items: seq<MapItem>)
    requires forall i :: 0 <= i < |items| ==> FromItem(items[i]).Converted?
    ensures DistinctKeys(Readings(items)) <==> Distinct(items)
  {
    ReadingsOf(items);
    var rs := Readings(items);
    assert forall i :: 0 <= i < |items| ==> items[i].key == Some(rs[i].value.key);
  }

  ghost predicate AllRead(rs: seq<Conversion<Entry>>) {
    forall i :: 0 <= i < |rs| ==> rs[i].Converted?
  }

  ghost predicate DistinctKeys(rs: seq<Conversion<Entry>>) {
    forall i, j :: 0 <= i < j < |rs| && rs[i].Converted? && rs[j].Converted? ==> rs[i].value.key != rs[j].value.key
  }

  /** The entries are exactly the readings. */
  ghost predicate Holds(rs: seq<Conversion<Entry>>, entries: seq<Entry>) {
    && (forall i :: 0 <= i < |rs| ==> rs[i].Converted? && rs[i].value in entries)
    && (forall e :: e in entries ==> Converted(e) in rs)
  }

  lemma {:induction false} CollectAccepts(rs: seq<Conversion<Entry>>)
    ensures Collect(rs).Converted? <==> AllRead(rs) && DistinctKeys(rs)
    ensures Collect(rs).Converted? ==> Sorted(Collect(rs).value) && Holds(rs, Collect(rs).value)
  {
    if rs != [] {
      var init, last := rs[..|rs| - 1], rs[|rs| - 1];
      assert rs == init + [last];
      CollectAccepts(init);
      assert AllRead(rs) <==> AllRead(init) && last.Converted?;
      if Collect(init).Converted? && last.Converted? {
        var entries, e := Collect(init).value, last.value;
        NewKey(init, entries, e);
        if !HasKey(entries, e.key) {
          InsertSorts(entries, e);
          InsertHolds(init, entries, e);
        }
      } else {
        assert DistinctKeys(rs) ==> DistinctKeys(init);
      }
    }
  }

  lemma NewKey(rs: seq<Conversion<Entry>>, entries: seq<Entry>, e: Entry)
    requires DistinctKeys(rs) && Holds(rs, entries)
    ensures !HasKey(entries, e.key) <==> DistinctKeys(rs + [Converted(e)])
  {
    var all := rs + [Converted(e)];
    if HasKey(entries, e.key) {
      var j :| 0 <= j < |entries| && entries[j].key == e.key;
      assert entries[j] in entries;
      var i :| 0 <= i < |rs| && rs[i] == Converted(entries[j]);
      assert all[i] == rs[i] && all[|rs|] == Converted(e);
    } else {
      forall i | 0 <= i < |rs|
        ensures rs[i].value.key != e.key
      {
        var x := rs[i].value;
        var j :| 0 <= j < |entries| && entries[j] == x;
      }
    }
  }

  lemma {:induction false} InsertHolds(rs: seq<Conversion<Entry>>, entries: seq<Entry>, e: Entry)
    requires Holds(rs, entries)
    ensures Holds(rs + [Converted(e)], Insert(entries, e))
  {
    InsertKeeps(entries, e);
  }

  lemma {:induction false} SortedUnique(a: seq<Entry>, b: seq<Entry>)
    requires Sorted(a) && Sorted(b)
    requires forall e :: e in a <==> e in b
    ensures a == b
  {
    if a != [] || b != [] {
      var first := if a != [] then a[0] else b[0];
      assert first in a && first in b;
      SameLast(a, b);
      var m, n := |a| - 1, |b| - 1;
      assert a[m] == b[n];
      var x, y := a[..m], b[..n];
      forall e
        ensures e in x <==> e in y
      {
        WithoutLast(a, e);
        WithoutLast(b, e);
      }
      SortedUnique(x, y);
      assert a == a[..m] + [a[m]] && b == b[..n] + [b[n]];
    }
  }

  lemma WithoutLast(a: seq<Entry>, e: Entry)
    requires a != [] && Sorted(a)
    ensures e in a[..|a| - 1] <==> e in a && e != a[|a| - 1]
  {
    var m := |a| - 1;
    KeyIrreflexive(a[m].key);
    assert a == a[..m] + [a[m]];
  }

  lemma SameLast(a: seq<Entry>, b: seq<Entry>)
    requires a != [] && b != [] && Sorted(a) && Sorted(b)
    requires forall e :: e in a <==> e in b
    ensures a[|a| - 1] == b[|b| - 1]
  {
    var p, q := a[|a| - 1], b[|b| - 1];
    assert p in a && q in b;
    var j :| 0 <= j < |b| && b[j] == p;
    var i :| 0 <= i < |a| && a[i] == q;
    if i < |a| - 1 && j < |b| - 1 {
      KeyTransitive(p.key, q.key, p.key);
      KeyIrreflexive(p.key);
    }
  }

  /** A map message is read as `entries` exactly when its keys are unique and `entries` lists, in key order, the
      readings of its items, whatever the order of the items. */
  lemma {:induction false} MapReadExactly(items: seq<MapItem>, entries: seq<Entry>)
    ensures FromItems(items) == Converted(entries) <==>
            DistinctKeys(Readings(items)) && Holds(Readings(items), entries) && Sorted(entries)
  {
    ReadingsOf(items);
    var rs := Readings(items);
    CollectAccepts(rs);
    if DistinctKeys(rs) && Holds(rs, entries) && Sorted(entries) {
      HoldsUnique(rs, entries, Collect(rs).value);
    }
  }

  lemma HoldsUnique(rs: seq<Conversion<Entry>>, a: seq<Entry>, b: seq<Entry>)
    requires Holds(rs, a) && Holds(rs, b) && Sorted(a) && Sorted(b)
    ensures a == b
  {
    HoldsIncludes(rs, a, b);
    HoldsIncludes(rs, b, a);
    SortedUnique(a, b);
  }

  lemma HoldsIncludes(rs: seq<Conversion<Entry>>, a: seq<Entry>, b: seq<Entry>)
    requires Holds(rs, a) && Holds(rs, b)
    ensures forall e :: e in a ==> e in b
  {
    forall e | e in a
      ensures e in b
    {
      var i :| 0 <= i < |rs| && rs[i] == Converted(e);
    }
  }

  // ----- What was read can be written again -----

  /** What is read is in key order at every depth. */
  lemma {:induction false} ReadIsCanonical(p: Proto)
    requires FromProto(p).Converted?
    ensures Canonical(FromProto(p).value)
    decreases p
  {
    match p.value
    case Some(ListValue(elements)) => ElementsCanonical(elements);
    case Some(MapValue(items)) => ItemsCanonical(items);
    case Some(value) =>
  }

  lemma {:induction false} ElementsCanonical(elements: seq<Proto>)
    requires FromElements(elements).Converted?
    ensures forall i :: 0 <= i < |FromElements(elements).value| ==> Canonical(FromElements(elements).value[i])
    decreases elements
  {
    if elements != [] {
      ElementsCanonical(elements[..|elements| - 1]);
      ReadIsCanonical(elements[|elements| - 1]);
    }
  }

  lemma {:induction false} ItemCanonical(item: MapItem)
    requires FromItem(item).Converted?
    ensures Canonical(FromItem(item).value.value)
    decreases item
  {
    ReadIsCanonical(item.value.value);
  }

  lemma {:induction false} ItemsCanonical(items: seq<MapItem>)
    requires FromItems(items).Converted?
    ensures Canonical(Map(FromItems(items).value))
    decreases items
  {
    var entries := FromItems(items).value;
    MapReadExactly(items, entries);
    ReadingsOf(items);
    forall k | 0 <= k < |entries|
      ensures Canonical(entries[k].value)
    {
      assert entries[k] in entries;
      var i :| 0 <= i < |items| && Readings(items)[i] == Converted(entries[k]);
      ItemCanonical(items[i]);
    }
  }

  /** The whole seconds of a time message, its fraction carried over. */
  function WholeSeconds(t: ProtoTime): int {
    t.seconds + (if t.nanos < 0 then 0 else t.nanos / 1_000_000_000)
  }

  predicate TimeRereads(t: ProtoTime) {
    WholeSeconds(t) <= I64_MAX / MICROS
  }

  lemma TimeRereadsExactly(t: ProtoTime)
    requires FromTime(t).Converted?
    ensures Fits(FromTime(t).value) <==> TimeRereads(t)
  {
    TimeAccepted(t);
    var us := FromTime(t).value;
    var fraction := if t.nanos < 0 then 0 else t.nanos / 1000;
    assert us / MICROS == t.seconds + fraction / MICROS;
    assert t.nanos >= 0 ==> fraction / MICROS == t.nanos / 1_000_000_000;
  }

  predicate ScalarRereads(value: ProtoValue) {
    match value
    case DurationValue(d) => TimeRereads(d)
    case TimestampValue(t) => TimeRereads(t)
    case _ => true
  }

  /** At every depth the whole seconds of the message's times, fractions carried over, stay within the bound. */
  ghost predicate Rereads(p: Proto)
    decreases p
  {
    match p.value
    case None => true
    case Some(ListValue(elements)) => ElementsReread(elements)
    case Some(MapValue(items)) => ItemsReread(items)
    case Some(value) => ScalarRereads(value)
  }

  ghost predicate ElementsReread(elements: seq<Proto>)
    decreases elements
  {
    forall i :: 0 <= i < |elements| ==> Rereads(elements[i])
  }

  ghost predicate ItemRereads(item: MapItem)
    decreases item
  {
    item.value.Some? ==> Rereads(item.value.value)
  }

  ghost predicate ItemsReread(items: seq<MapItem>)
    decreases items
  {
    forall i :: 0 <= i < |items| ==> ItemRereads(items[i])
  }

  lemma {:induction false} FitsIffRereads(p: Proto)
    requires FromProto(p).Converted?
    ensures TimesFit(FromProto(p).value) <==> Rereads(p)
    decreases p
  {
    match p.value
    case Some(ListValue(elements)) => ElementsFit(elements);
    case Some(MapValue(items)) => ItemsFit(items);
    case Some(value) => ScalarFits(value);
  }

  lemma ScalarFits(value: ProtoValue)
    requires !value.ListValue? && !value.MapValue? && FromScalar(value).Converted?
    ensures TimesFit(FromScalar(value).value) <==> ScalarRereads(value)
  {
    match value
    case DurationValue(d) => TimeRereadsExactly(d);
    case TimestampValue(t) => TimeRereadsExactly(t);
    case _ =>
  }

  lemma {:induction false} ElementsRereadLast(init: seq<Proto>, last: Proto)
    ensures ElementsReread(init + [last]) <==> ElementsReread(init) && Rereads(last)
  {
    var elements := init + [last];
    assert elements[|init|] == last;
    assert forall i :: 0 <= i < |init| ==> elements[i] == init[i];
  }

  lemma {:induction false} ElementsFit(elements: seq<Proto>)
    requires FromElements(elements).Converted?
    ensures ListFits(FromElements(elements).value) <==> ElementsReread(elements)
    decreases elements
  {
    if elements != [] {
      var init, last := elements[..|elements| - 1], elements[|elements| - 1];
      assert elements == init + [last];
      ElementsLast(init, last);
      ElementsFit(init);
      FitsIffRereads(last);
      ListFitsLast(FromElements(init).value, FromProto(last).value);
      ElementsRereadLast(init, last);
    }
  }

  lemma {:induction false} ItemFits(item: MapItem)
    requires FromItem(item).Converted?
    ensures TimesFit(FromItem(item).value.value) <==> ItemRereads(item)
    decreases item
  {
    FitsIffRereads(item.value.value);
  }

  lemma {:induction false} ItemsFit(items: seq<MapItem>)
    requires FromItems(items).Converted?
    ensures EntriesFit(FromItems(items).value) <==> ItemsReread(items)
    decreases items
  {
    var entries, rs := FromItems(items).value, Readings(items);
    MapReadExactly(items, entries);
    ReadingsOf(items);
    forall i | 0 <= i < |items|
      ensures rs[i].Converted? && (TimesFit(rs[i].value.value) <==> ItemRereads(items[i]))
    {
      ItemFits(items[i]);
    }
    ReadingsFit(rs, entries);
  }

  ghost predicate ReadingsAllFit(rs: seq<Conversion<Entry>>) {
    forall i :: 0 <= i < |rs| && rs[i].Converted? ==> TimesFit(rs[i].value.value)
  }

  lemma {:induction false} ReadingsFit(rs: seq<Conversion<Entry>>, entries: seq<Entry>)
    requires Holds(rs, entries)
    ensures EntriesFit(entries) <==> ReadingsAllFit(rs)
  {
    if EntriesFit(entries) {
      forall i | 0 <= i < |rs|
        ensures TimesFit(rs[i].value.value)
      {
        var k :| 0 <= k < |entries| && entries[k] == rs[i].value;
      }
    }
    if ReadingsAllFit(rs) {
      forall k | 0 <= k < |entries|
        ensures TimesFit(entries[k].value)
      {
        assert entries[k] in entries;
        var i :| 0 <= i < |rs| && rs[i] == Converted(entries[k]);
      }
    }
  }

  /** Whatever message is read, writing its value gives a message that is read as the same value exactly when, at every
      depth, the message's whole seconds with their fractions carried over stay within the bound. */
  lemma {:induction false} ReadWriteRead(p: Proto)
    requires FromProto(p).Converted?
    ensures FromProto(ToProto(FromProto(p).value)) ==
            if Rereads(p) then FromProto(p) else Refused(SecondsOverflow)
  {
    ReadIsCanonical(p);
    RoundTrip(FromProto(p).value);
    FitsIffRereads(p);
  }
}
