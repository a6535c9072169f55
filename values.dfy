/**
 * The JavaScript values the library works on, reduced to JSON-like data:
 * primitives, dates, functions, arrays (which may have holes) and plain
 * objects (whose keys keep their insertion order, as `Object.entries`
 * lists them). It also holds the few generic operations the library
 * applies to such values: property read and assignment, the JSON round
 * trip used as a deep copy, lodash's `_.set` and `_.merge`, and
 * `Object.assign`.
 */
module JsValues {
  import opened Text

  datatype Option<T> = None | Some(value: T)

  /** A date as its seven local calendar fields, in the order the diff
      engine reads them (the month is 0-based, as `getMonth` returns it). */
  datatype Date = Date(year: int, month: int, day: int, hours: int,
                       minutes: int, seconds: int, milliseconds: int)

  /** The date `new Date(null)` makes, time value 0: midnight of 1 January
      1970, with the local fields read in a UTC time zone. */
  const EPOCH: Date := Date(1970, 0, 1, 0, 0, 0, 0)

  /** The decimal text of `n` with leading zeros up to `width` digits. */
  function PadDigits(n: nat, width: nat): (s: string)
    ensures |s| >= width && AllDigits(s)
  {
    var t := NatToString(n);
    if |t| >= width then t else seq(width - |t|, _ => '0') + t
  }

  /** A calendar field as `toISOString` writes it; a negative field, which
      no normalised date has, is written as 0. */
  function FieldText(n: int, width: nat): string {
    PadDigits(if n < 0 then 0 else n, width)
  }

  /** `toISOString()`, `YYYY-MM-DDTHH:mm:ss.sssZ`, with the fields taken
      as UTC; a year outside 0..9999 is written with its sign and six
      digits. */
  function IsoText(d: Date): string {
    var year :=
      if 0 <= d.year <= 9999 then PadDigits(d.year, 4)
      else if d.year < 0 then "-" + PadDigits(-d.year, 6)
      else "+" + PadDigits(d.year, 6);
    year + "-" + FieldText(d.month + 1, 2) + "-" + FieldText(d.day, 2) +
    "T" + FieldText(d.hours, 2) + ":" + FieldText(d.minutes, 2) + ":" + FieldText(d.seconds, 2) +
    "." + FieldText(d.milliseconds, 3) + "Z"
  }

  /** A JavaScript value. Numbers are integers (no NaN, no fractions);
      a function is known only by its identity. */
  datatype Value =
    | Undefined
    | Null
    | Bool(b: bool)
    | Num(n: int)
    | Str(s: string)
    | DateVal(date: Date)
    | Func(id: nat)
    | Arr(items: seq<Slot>)
    | Obj(fields: seq<Field>)

  /** One index of an array: a hole (never assigned) or an assigned value,
      possibly `undefined`. The array's length is the number of slots. */
  datatype Slot = Hole | Item(value: Value)

  /** One own enumerable property of a plain object. */
  datatype Field = Field(key: string, val: Value)

  /** The classes the library's `typeOf` distinguishes. */
  datatype Kind =
    | StringKind | NumberKind | BooleanKind | DateKind
    | ArrayKind | ObjectKind | FunctionKind | NullishKind

  /** `typeOf`: a total classifier; null and undefined are both nullish. */
  function TypeOf(v: Value): Kind {
    match v
    case Undefined => NullishKind
    case Null => NullishKind
    case Bool(_) => BooleanKind
    case Num(_) => NumberKind
    case Str(_) => StringKind
    case DateVal(_) => DateKind
    case Func(_) => FunctionKind
    case Arr(_) => ArrayKind
    case Obj(_) => ObjectKind
  }

  /** The JavaScript `typeof` operator, which calls null, arrays, dates and
      plain objects alike "object". */
  function TypeofTag(v: Value): string {
    match v
    case Undefined => "undefined"
    case Bool(_) => "boolean"
    case Num(_) => "number"
    case Str(_) => "string"
    case Func(_) => "function"
    case _ => "object"
  }

  /** `typeof` is coarser than `typeOf` except on the nullish class, where
      it tells null ("object") from undefined. */
  lemma TypeofTagOfKind(a: Value, b: Value)
    ensures TypeOf(a) == TypeOf(b) && TypeOf(a) != NullishKind ==> TypeofTag(a) == TypeofTag(b)
    ensures TypeofTag(a) == "object" <==> a.Null? || a.DateVal? || a.Arr? || a.Obj?
  {
  }

  /** JavaScript truthiness. */
  predicate Truthy(v: Value) {
    match v
    case Undefined => false
    case Null => false
    case Bool(b) => b
    case Num(n) => n != 0
    case Str(s) => s != ""
    case _ => true
  }

  /** `String(v)`, which is what a template literal writes for `v`. An array
      is written as its elements joined by commas, where holes, null and
      undefined count as empty. A date or a function is written as a fixed
      placeholder standing for its text. */
  function ToJsString(v: Value): string
    decreases v
  {
    match v
    case Undefined => "undefined"
    case Null => "null"
    case Bool(b) => if b then "true" else "false"
    case Num(n) => IntToString(n)
    case Str(s) => s
    case DateVal(_) => "[date]"
    case Func(_) => "[function]"
    case Arr(items) => Join(ItemTexts(items), ",")
    case Obj(_) => "[object Object]"
  }

  /** What `Array.prototype.join` writes for one element. */
  function ItemText(sl: Slot): string
    decreases sl
  {
    if sl.Hole? || sl.value.Undefined? || sl.value.Null? then "" else ToJsString(sl.value)
  }

  function ItemTexts(items: seq<Slot>): (r: seq<string>)
    ensures |r| == |items|
    ensures forall i :: 0 <= i < |items| ==> r[i] == ItemText(items[i])
    decreases items
  {
    if |items| == 0 then [] else [ItemText(items[0])] + ItemTexts(items[1..])
  }

  /** The outcome of a JavaScript call: the value it returns, or the error
      it throws. */
  datatype Outcome<T> = Returned(value: T) | Threw(error: string)

  /** The error a call on a value of the wrong kind throws: a property read
      on undefined (`this.segments[0].prefix` with no segments, `this[0]` of
      an empty list), a string method on a non-string, `join` on a
      non-array. */
  const TYPE_ERROR := "TypeError"

  /** `a[i]` on an array: undefined for a hole or past the end. */
  function SlotValue(a: seq<Slot>, i: int): Value {
    if 0 <= i < |a| && a[i].Item? then a[i].value else Undefined
  }

  function Holes(n: nat): (r: seq<Slot>)
    ensures |r| == n && forall i :: 0 <= i < n ==> r[i] == Hole
  {
    seq(n, _ => Hole)
  }

  /** `a[i] = v` on an array: the array grows to `i + 1` with holes. */
  function Assign(a: seq<Slot>, i: nat, v: Value): (r: seq<Slot>)
    ensures |r| == if i < |a| then |a| else i + 1
    ensures r[i] == Item(v)
    ensures forall j :: 0 <= j < |a| && j != i ==> r[j] == a[j]
    ensures forall j :: |a| <= j < i ==> r[j] == Hole
  {
    if i < |a| then a[i := Item(v)] else a + Holes(i - |a|) + [Item(v)]
  }

  /** The keys of an object, in order (`Object.keys`). */
  function KeysOf(fs: seq<Field>): (keys: seq<string>)
    ensures |keys| == |fs| && forall i :: 0 <= i < |fs| ==> keys[i] == fs[i].key
  {
    if |fs| == 0 then [] else [fs[0].key] + KeysOf(fs[1..])
  }

  predicate DistinctKeys(fs: seq<Field>) {
    forall i, j :: 0 <= i < j < |fs| ==> fs[i].key != fs[j].key
  }

  /** Every object inside the value has distinct keys, as every JavaScript
      object does. */
  predicate WellFormed(v: Value)
    decreases v
  {
    match v
    case Arr(a) => SlotsWellFormed(a)
    case Obj(fs) => DistinctKeys(fs) && FieldsWellFormed(fs)
    case _ => true
  }

  predicate SlotsWellFormed(a: seq<Slot>)
    decreases a
  {
    |a| > 0 ==> SlotWellFormed(a[0]) && SlotsWellFormed(a[1..])
  }

  predicate SlotWellFormed(s: Slot)
    decreases s
  {
    s.Item? ==> WellFormed(s.value)
  }

  predicate FieldsWellFormed(fs: seq<Field>)
    decreases fs
  {
    |fs| > 0 ==> WellFormed(fs[0].val) && FieldsWellFormed(fs[1..])
  }

  lemma {:induction false} FieldsWellFormedAt(fs: seq<Field>, i: nat)
    requires FieldsWellFormed(fs) && i < |fs|
    ensures WellFormed(fs[i].val)
    decreases i
  {
    if i > 0 { FieldsWellFormedAt(fs[1..], i - 1); }
  }

  lemma {:induction false} SlotsWellFormedAt(a: seq<Slot>, i: nat)
    requires SlotsWellFormed(a) && i < |a| && a[i].Item?
    ensures WellFormed(a[i].value)
    decreases i
  {
    if i > 0 { SlotsWellFormedAt(a[1..], i - 1); }
  }

  /** `obj[k]` on a plain object: the value of the first field named `k`. */
  function Get(fs: seq<Field>, k: string): Value {
    if |fs| == 0 then Undefined else if fs[0].key == k then fs[0].val else Get(fs[1..], k)
  }

  lemma {:induction false} GetAbsent(fs: seq<Field>, k: string)
    requires k !in KeysOf(fs)
    ensures Get(fs, k) == Undefined
  {
    if |fs| > 0 {
      assert KeysOf(fs[1..]) == KeysOf(fs)[1..];
      GetAbsent(fs[1..], k);
    }
  }

  lemma {:induction false} GetAt(fs: seq<Field>, i: nat)
    requires DistinctKeys(fs) && i < |fs|
    ensures Get(fs, fs[i].key) == fs[i].val
  {
    if i > 0 {
      GetAt(fs[1..], i - 1);
    }
  }

  /** Reading an object that was extended by one field at its end. */
  lemma {:induction false} GetAppend(fs: seq<Field>, f: Field, k: string)
    ensures KeysOf(fs + [f]) == KeysOf(fs) + [f.key]
    ensures Get(fs + [f], k) == if k in KeysOf(fs) then Get(fs, k) else if k == f.key then f.val else Undefined
  {
    if |fs| > 0 {
      assert (fs + [f])[1..] == fs[1..] + [f];
      assert KeysOf(fs[1..]) == KeysOf(fs)[1..];
      GetAppend(fs[1..], f, k);
    }
  }

  /** `obj[k] = v` on a plain object: an existing key keeps its place, a new
      key goes last. */
  function Put(fs: seq<Field>, k: string, v: Value): (r: seq<Field>)
    ensures KeysOf(r) == if k in KeysOf(fs) then KeysOf(fs) else KeysOf(fs) + [k]
    ensures Get(r, k) == v
    ensures forall k' :: k' != k ==> Get(r, k') == Get(fs, k')
    ensures DistinctKeys(fs) ==> DistinctKeys(r)
  {
    if |fs| == 0 then [Field(k, v)]
    else if fs[0].key == k then [Field(k, v)] + fs[1..]
    else
      var rest := Put(fs[1..], k, v);
      assert KeysOf(fs) == [fs[0].key] + KeysOf(fs[1..]);
      assert KeysOf([fs[0]] + rest) == [fs[0].key] + KeysOf(rest);
      [fs[0]] + rest
  }

  /** Every value of `Put` is a value of the old object or the new one. */
  lemma {:induction false} PutWellFormed(fs: seq<Field>, k: string, v: Value)
    requires WellFormed(Obj(fs)) && WellFormed(v)
    ensures WellFormed(Obj(Put(fs, k, v)))
  {
    if |fs| > 0 && fs[0].key != k {
      PutWellFormed(fs[1..], k, v);
      assert Put(fs, k, v) == [fs[0]] + Put(fs[1..], k, v);
    }
  }

  // ---------------------------------------------------------------------
  // JSON round trip: JSON.parse(JSON.stringify(v))
  // ---------------------------------------------------------------------

  /** Values `JSON.stringify` leaves out of an object. */
  predicate Omitted(v: Value) {
    v.Undefined? || v.Func?
  }

  /** What `JSON.parse(JSON.stringify(v))` gives back: undefined and
      functions are dropped from objects and become null in arrays, holes
      become null, and a date becomes its ISO text (`Date.prototype.toJSON`),
      which the parse reads back as a string. */
  function JsonCopy(v: Value): (r: Value)
    ensures !r.DateVal? && !r.Func?
    decreases v
  {
    match v
    case Func(_) => Undefined
    case DateVal(d) => Str(IsoText(d))
    case Arr(a) => Arr(CopySlots(a))
    case Obj(fs) => Obj(CopyFields(fs))
    case _ => v
  }

  function CopySlot(s: Slot): Slot
    decreases s
  {
    match s
    case Hole => Item(Null)
    case Item(x) => Item(if Omitted(x) then Null else JsonCopy(x))
  }

  function CopySlots(a: seq<Slot>): (r: seq<Slot>)
    ensures |r| == |a|
    decreases a
  {
    if |a| == 0 then [] else [CopySlot(a[0])] + CopySlots(a[1..])
  }

  function CopyFields(fs: seq<Field>): seq<Field>
    decreases fs
  {
    if |fs| == 0 then []
    else if Omitted(fs[0].val) then CopyFields(fs[1..])
    else [Field(fs[0].key, JsonCopy(fs[0].val))] + CopyFields(fs[1..])
  }

  /** Two values serialise to the same JSON text. */
  predicate StringifyEq(a: Value, b: Value) {
    JsonCopy(a) == JsonCopy(b)
  }

  /** A value that the JSON round trip leaves as it is. */
  predicate JsonNormal(v: Value) {
    JsonCopy(v) == v
  }

  /** The JSON round trip is idempotent: a copy is already normal. */
  lemma {:induction false} CopyNormal(v: Value)
    ensures JsonNormal(JsonCopy(v))
    decreases v
  {
    match v
    case Arr(a) => CopySlotsNormal(a);
    case Obj(fs) => CopyFieldsNormal(fs);
    case _ =>
  }

  lemma {:induction false} CopySlotsNormal(a: seq<Slot>)
    ensures CopySlots(CopySlots(a)) == CopySlots(a)
    decreases a
  {
    if |a| > 0 {
      CopySlotsNormal(a[1..]);
      CopySlotNormal(a[0]);
    }
  }

  lemma {:induction false} CopySlotNormal(s: Slot)
    ensures CopySlot(CopySlot(s)) == CopySlot(s)
    decreases s
  {
    match s
    case Hole =>
    case Item(x) =>
      if !Omitted(x) {
        CopyNormal(x);
        CopyNotOmitted(x);
      }
  }

  lemma {:induction false} CopyFieldsNormal(fs: seq<Field>)
    ensures CopyFields(CopyFields(fs)) == CopyFields(fs)
    decreases fs
  {
    if |fs| > 0 {
      CopyFieldsNormal(fs[1..]);
      if !Omitted(fs[0].val) {
        CopyNormal(fs[0].val);
        CopyNotOmitted(fs[0].val);
        var f := Field(fs[0].key, JsonCopy(fs[0].val));
        assert ([f] + CopyFields(fs[1..]))[1..] == CopyFields(fs[1..]);
      }
    }
  }

  /** A value JSON keeps stays a kept value after the copy, of the same
      `typeof` unless it is a date, which becomes a string. */
  lemma CopyNotOmitted(x: Value)
    requires !Omitted(x)
    ensures !Omitted(JsonCopy(x))
    ensures !x.DateVal? ==> TypeofTag(JsonCopy(x)) == TypeofTag(x) && TypeOf(JsonCopy(x)) == TypeOf(x)
    ensures x.DateVal? ==> JsonCopy(x) == Str(IsoText(x.date))
  {
  }

  /** No date is reached from the value through object fields alone. The
      JSON copy turns each such date into a string, which a diff of the
      copy against the original then reports; dates inside arrays are
      compared by their JSON text, which the copy keeps. */
  predicate NoFieldDates(v: Value)
    decreases v
  {
    match v
    case DateVal(_) => false
    case Obj(fs) => FieldsNoDates(fs)
    case _ => true
  }

  predicate FieldsNoDates(fs: seq<Field>)
    decreases fs
  {
    |fs| > 0 ==> NoFieldDates(fs[0].val) && FieldsNoDates(fs[1..])
  }

  lemma {:induction false} FieldsNoDatesAll(fs: seq<Field>)
    ensures FieldsNoDates(fs) <==> forall i :: 0 <= i < |fs| ==> NoFieldDates(fs[i].val)
    decreases |fs|
  {
    if |fs| > 0 {
      FieldsNoDatesAll(fs[1..]);
      assert forall i :: 1 <= i < |fs| ==> fs[1..][i - 1] == fs[i];
    }
  }

  lemma {:induction false} FieldsNoDatesGet(fs: seq<Field>, k: string)
    requires FieldsNoDates(fs)
    ensures NoFieldDates(Get(fs, k))
    decreases fs
  {
    if |fs| > 0 && fs[0].key != k { FieldsNoDatesGet(fs[1..], k); }
  }

  /** A JSON copy holds no date: each became its ISO text. */
  lemma {:induction false} CopyNoFieldDates(v: Value)
    ensures NoFieldDates(JsonCopy(v))
    decreases v
  {
    if v.Obj? { CopyFieldsNoDates(v.fields); }
  }

  lemma {:induction false} CopyFieldsNoDates(fs: seq<Field>)
    ensures FieldsNoDates(CopyFields(fs))
    decreases fs
  {
    if |fs| > 0 {
      CopyFieldsNoDates(fs[1..]);
      if !Omitted(fs[0].val) {
        CopyNoFieldDates(fs[0].val);
        var f := Field(fs[0].key, JsonCopy(fs[0].val));
        assert ([f] + CopyFields(fs[1..]))[1..] == CopyFields(fs[1..]);
      }
    }
  }

  /** The keys of a copied object are the kept keys, in order; a copy of a
      well-formed value is well-formed. */
  lemma {:induction false} CopyFieldsGet(fs: seq<Field>, k: string)
    requires DistinctKeys(fs)
    ensures Get(CopyFields(fs), k) == if Omitted(Get(fs, k)) then Undefined else JsonCopy(Get(fs, k))
    ensures k in KeysOf(CopyFields(fs)) <==> k in KeysOf(fs) && !Omitted(Get(fs, k))
    decreases fs
  {
    if |fs| > 0 {
      CopyFieldsGet(fs[1..], k);
      assert KeysOf(fs) == [fs[0].key] + KeysOf(fs[1..]);
      if fs[0].key == k {
        assert k !in KeysOf(fs[1..]);
        GetAbsent(fs[1..], k);
        if !Omitted(fs[0].val) {
          assert KeysOf(CopyFields(fs)) == [k] + KeysOf(CopyFields(fs[1..]));
        }
      } else if !Omitted(fs[0].val) {
        assert KeysOf(CopyFields(fs)) == [fs[0].key] + KeysOf(CopyFields(fs[1..]));
      }
    } else {
      assert KeysOf(fs) == [];
    }
  }

  lemma {:induction false} CopyFieldsKeys(fs: seq<Field>)
    requires DistinctKeys(fs)
    ensures DistinctKeys(CopyFields(fs))
    ensures forall k :: k in KeysOf(CopyFields(fs)) ==> k in KeysOf(fs)
    decreases fs
  {
    if |fs| > 0 {
      CopyFieldsKeys(fs[1..]);
      assert KeysOf(fs) == [fs[0].key] + KeysOf(fs[1..]);
      if !Omitted(fs[0].val) {
        var rest := CopyFields(fs[1..]);
        var r := [Field(fs[0].key, JsonCopy(fs[0].val))] + rest;
        assert KeysOf(r) == [fs[0].key] + KeysOf(rest);
        assert fs[0].key !in KeysOf(fs[1..]);
        forall i, j | 0 <= i < j < |r| ensures r[i].key != r[j].key {
          if i == 0 { assert r[j].key == KeysOf(rest)[j - 1]; }
          else { assert r[i] == rest[i - 1] && r[j] == rest[j - 1]; }
        }
      }
    }
  }

  lemma {:induction false} CopyWellFormed(v: Value)
    requires WellFormed(v)
    ensures WellFormed(JsonCopy(v))
    decreases v
  {
    match v
    case Arr(a) => CopySlotsWellFormed(a);
    case Obj(fs) => CopyFieldsKeys(fs); CopyFieldsWellFormed(fs);
    case _ =>
  }

  lemma {:induction false} CopySlotsWellFormed(a: seq<Slot>)
    requires SlotsWellFormed(a)
    ensures SlotsWellFormed(CopySlots(a))
    decreases a
  {
    if |a| > 0 {
      CopySlotsWellFormed(a[1..]);
      CopySlotWellFormed(a[0]);
      assert CopySlots(a)[1..] == CopySlots(a[1..]);
    }
  }

  lemma {:induction false} CopySlotWellFormed(s: Slot)
    requires SlotWellFormed(s)
    ensures SlotWellFormed(CopySlot(s))
    decreases s
  {
    if s.Item? && !Omitted(s.value) { CopyWellFormed(s.value); }
  }

  lemma {:induction false} CopyFieldsWellFormed(fs: seq<Field>)
    requires FieldsWellFormed(fs)
    ensures FieldsWellFormed(CopyFields(fs))
    decreases fs
  {
    if |fs| > 0 {
      CopyFieldsWellFormed(fs[1..]);
      if !Omitted(fs[0].val) {
        CopyWellFormed(fs[0].val);
        var f := Field(fs[0].key, JsonCopy(fs[0].val));
        assert ([f] + CopyFields(fs[1..]))[1..] == CopyFields(fs[1..]);
      }
    }
  }

  // ---------------------------------------------------------------------
  // Property reads on values whose typeof is "object"
  // ---------------------------------------------------------------------

  /** The own properties that a property read `v[k]` finds on a non-null
      value whose `typeof` is "object": a plain object's fields; an array's
      assigned indices, under their decimal texts, followed by `length`;
      none for a date. */
  function OwnProps(v: Value): seq<Field> {
    match v
    case Obj(fs) => fs
    case Arr(a) => IndexFields(a) + [Field("length", Num(|a|))]
    case _ => []
  }

  /** The assigned indices of an array under their decimal texts, in
      index order. */
  function IndexFields(a: seq<Slot>): seq<Field>
    decreases |a|
  {
    if |a| == 0 then []
    else
      var n := |a| - 1;
      IndexFields(a[..n]) + (if a[n].Item? then [Field(IntToString(n), a[n].value)] else [])
  }

  /** Two indices with the same decimal text are the same index. */
  lemma IndexTextInjective(i: nat, j: nat)
    ensures IntToString(i) == IntToString(j) ==> i == j
  {
    NatLiteralRoundTrip(i);
    NatLiteralRoundTrip(j);
  }

  /** The decimal text of an index is never `length`. */
  lemma IndexTextNotLength(i: nat)
    ensures IntToString(i) != "length"
  {
    var t := IntToString(i);
    assert IsDigit(t[0]);
    assert !IsDigit("length"[0]);
  }

  /** A key that names no index of the array is not among its index fields. */
  lemma {:induction false} IndexFieldsAbsent(a: seq<Slot>, k: string)
    requires forall j: nat :: j < |a| ==> IntToString(j) != k
    ensures k !in KeysOf(IndexFields(a))
    decreases |a|
  {
    if |a| > 0 {
      var n := |a| - 1;
      IndexFieldsAbsent(a[..n], k);
      if a[n].Item? {
        GetAppend(IndexFields(a[..n]), Field(IntToString(n), a[n].value), k);
      } else {
        assert IndexFields(a) == IndexFields(a[..n]);
      }
    }
  }

  /** Reading an index key of an array's index fields is reading the array. */
  lemma {:induction false} IndexFieldsGet(a: seq<Slot>, i: nat)
    ensures Get(IndexFields(a), IntToString(i)) == SlotValue(a, i)
    decreases |a|
  {
    if |a| > 0 {
      var n := |a| - 1;
      var u := a[..n];
      var k := IntToString(i);
      IndexFieldsGet(u, i);
      IndexTextInjective(i, n);
      if a[n].Item? {
        var f := Field(IntToString(n), a[n].value);
        GetAppend(IndexFields(u), f, k);
        if i == n {
          forall j: nat | j < |u| ensures IntToString(j) != k { IndexTextInjective(j, n); }
          IndexFieldsAbsent(u, k);
        } else if k !in KeysOf(IndexFields(u)) {
          GetAbsent(IndexFields(u), k);
        }
      } else {
        assert IndexFields(a) == IndexFields(u);
      }
    }
  }

  /** `a.length` on an array is its number of slots. */
  lemma ArrayLengthProp(a: seq<Slot>)
    ensures Get(OwnProps(Arr(a)), "length") == Num(|a|)
  {
    forall j: nat | j < |a| ensures IntToString(j) != "length" { IndexTextNotLength(j); }
    IndexFieldsAbsent(a, "length");
    GetAppend(IndexFields(a), Field("length", Num(|a|)), "length");
  }

  /** `a[i]` read as the property named by the index's decimal text is the
      element, undefined for a hole or past the end. */
  lemma ArrayIndexProp(a: seq<Slot>, i: nat)
    ensures Get(OwnProps(Arr(a)), IntToString(i)) == SlotValue(a, i)
  {
    var k := IntToString(i);
    IndexFieldsGet(a, i);
    IndexTextNotLength(i);
    GetAppend(IndexFields(a), Field("length", Num(|a|)), k);
    if k !in KeysOf(IndexFields(a)) {
      GetAbsent(IndexFields(a), k);
    }
  }

  /** Any other key of an array reads as undefined. */
  lemma ArrayOtherProp(a: seq<Slot>, k: string)
    requires k != "length" && forall j: nat :: IntToString(j) != k
    ensures Get(OwnProps(Arr(a)), k) == Undefined
  {
    IndexFieldsAbsent(a, k);
    GetAppend(IndexFields(a), Field("length", Num(|a|)), k);
  }

  lemma {:induction false} IndexFieldsWellFormed(a: seq<Slot>)
    requires SlotsWellFormed(a)
    ensures FieldsWellFormed(IndexFields(a))
    decreases |a|
  {
    if |a| > 0 {
      var n := |a| - 1;
      var u := a[..n];
      SlotsWellFormedAll(a);
      SlotsWellFormedAll(u);
      IndexFieldsWellFormed(u);
      var extra := if a[n].Item? then [Field(IntToString(n), a[n].value)] else [];
      if a[n].Item? { SlotsWellFormedAt(a, n); }
      FieldsWellFormedAll(IndexFields(u));
      FieldsWellFormedAll(extra);
      FieldsWellFormedAll(IndexFields(u) + extra);
    }
  }

  /** The properties of a well-formed value hold well-formed values. */
  lemma OwnPropsWellFormed(v: Value)
    requires WellFormed(v)
    ensures FieldsWellFormed(OwnProps(v))
  {
    if v.Arr? {
      IndexFieldsWellFormed(v.items);
      var f := [Field("length", Num(|v.items|))];
      FieldsWellFormedAll(IndexFields(v.items));
      FieldsWellFormedAll(f);
      FieldsWellFormedAll(IndexFields(v.items) + f);
    }
  }

  /** The relational comparison `n < v` of a number with a value: `v` is
      converted to a number, and any comparison with NaN is false. A text
      converts by its decimal value (the empty text is 0, other texts are
      NaN), an array by the text `String` writes for it; undefined, plain
      objects, functions and dates count as NaN. */
  predicate NumberLess(n: int, v: Value) {
    match v
    case Num(x) => n < x
    case Bool(b) => n < (if b then 1 else 0)
    case Null => n < 0
    case Str(t) => TextLess(n, t)
    case Arr(_) => TextLess(n, ToJsString(v))
    case _ => false
  }

  predicate TextLess(n: int, t: string) {
    if t == "" then n < 0 else IsDecimalLiteral(t) && n < DecimalValue(t)
  }

  // ---------------------------------------------------------------------
  // lodash _.set, _.merge and Object.assign
  // ---------------------------------------------------------------------

  /** `_.set(obj, path, v)` on a path already split at its dots: missing or
      non-object steps are replaced by fresh plain objects. */
  function SetPath(fs: seq<Field>, path: seq<string>, v: Value): (r: seq<Field>)
    requires |path| >= 1
    ensures path[0] in KeysOf(r)
    ensures forall k :: k in KeysOf(fs) ==> k in KeysOf(r)
    decreases |path|
  {
    if |path| == 1 then Put(fs, path[0], v)
    else
      var child := Get(fs, path[0]);
      Put(fs, path[0], Obj(SetPath(if child.Obj? then child.fields else [], path[1..], v)))
  }

  /** `_.get(obj, path)`: undefined as soon as a step is not an object. */
  function GetPath(fs: seq<Field>, path: seq<string>): Value
    requires |path| >= 1
    decreases |path|
  {
    var child := Get(fs, path[0]);
    if |path| == 1 then child
    else if child.Obj? then GetPath(child.fields, path[1..])
    else Undefined
  }

  /** What `_.set` writes can be read back at the same path, and every
      other top-level key keeps its value. */
  lemma {:induction false} SetPathGet(fs: seq<Field>, path: seq<string>, v: Value)
    requires |path| >= 1
    ensures GetPath(SetPath(fs, path, v), path) == v
    ensures forall k :: k != path[0] ==> Get(SetPath(fs, path, v), k) == Get(fs, k)
    decreases |path|
  {
    if |path| > 1 {
      var child := Get(fs, path[0]);
      SetPathGet(if child.Obj? then child.fields else [], path[1..], v);
    }
  }

  /** The top-level keys after `_.set` are the old keys, plus the path's
      first step when it is new. */
  lemma SetPathKeys(fs: seq<Field>, path: seq<string>, v: Value)
    requires |path| >= 1
    ensures KeysOf(SetPath(fs, path, v)) ==
      if path[0] in KeysOf(fs) then KeysOf(fs) else KeysOf(fs) + [path[0]]
  {
  }

  lemma {:induction false} SetPathWellFormed(fs: seq<Field>, path: seq<string>, v: Value)
    requires |path| >= 1 && WellFormed(Obj(fs)) && WellFormed(v)
    ensures WellFormed(Obj(SetPath(fs, path, v)))
    decreases |path|
  {
    if |path| == 1 {
      PutWellFormed(fs, path[0], v);
    } else {
      var child := Get(fs, path[0]);
      if child.Obj? { GetWellFormed(fs, path[0]); }
      SetPathWellFormed(if child.Obj? then child.fields else [], path[1..], v);
      PutWellFormed(fs, path[0], Obj(SetPath(if child.Obj? then child.fields else [], path[1..], v)));
    }
  }

  lemma {:induction false} GetWellFormed(fs: seq<Field>, k: string)
    requires FieldsWellFormed(fs)
    ensures WellFormed(Get(fs, k))
  {
    if |fs| > 0 && fs[0].key != k { GetWellFormed(fs[1..], k); }
  }

  /** lodash's merge of one source value into the destination value at the
      same place: plain objects and arrays are merged recursively (into a
      fresh container when the destination is not of that kind), every
      other source value replaces the destination. */
  function MergeValue(d: Value, s: Value): (r: Value)
    ensures s.Obj? ==> r.Obj? && forall k :: k in KeysOf(s.fields) ==> k in KeysOf(r.fields)
    ensures s.Arr? ==> r.Arr?
    ensures !s.Obj? && !s.Arr? ==> r == s
    decreases s
  {
    match s
    case Obj(sfs) => Obj(Merge(if d.Obj? then d.fields else [], sfs))
    case Arr(sa) => Arr(MergeSlots(if d.Arr? then d.items else [], sa))
    case _ => s
  }

  /** `_.merge(dst, src)` on plain objects: the source's keys in order; an
      undefined source value does not overwrite an existing key. */
  function Merge(dst: seq<Field>, src: seq<Field>): (r: seq<Field>)
    ensures forall k :: k in KeysOf(dst) ==> k in KeysOf(r)
    ensures forall k :: k in KeysOf(src) ==> k in KeysOf(r)
    decreases src
  {
    if |src| == 0 then dst
    else Merge(MergeField(dst, src[0]), src[1..])
  }

  function MergeField(dst: seq<Field>, f: Field): seq<Field>
    decreases f
  {
    if f.val.Undefined? && f.key in KeysOf(dst) then dst
    else Put(dst, f.key, MergeValue(Get(dst, f.key), f.val))
  }

  /** `_.merge` on arrays: index by index, holes of the source read as
      undefined. */
  function MergeSlots(dst: seq<Slot>, src: seq<Slot>): seq<Slot>
    decreases src
  {
    MergeSlotsFrom(dst, src, 0)
  }

  function MergeSlotsFrom(dst: seq<Slot>, src: seq<Slot>, i: nat): seq<Slot>
    requires i <= |src|
    decreases src, |src| - i
  {
    if i == |src| then dst
    else
      MergeSlotsFrom(MergeSlot(dst, i, src[i]), src, i + 1)
  }

  /** Merges one source index into the destination array. */
  function MergeSlot(dst: seq<Slot>, i: nat, s: Slot): seq<Slot>
    decreases s
  {
    match s
    case Item(sv) =>
      if sv.Undefined? && i < |dst| && dst[i].Item? then dst
      else Assign(dst, i, MergeValue(SlotValue(dst, i), sv))
    case Hole =>
      if i < |dst| && dst[i].Item? then dst else Assign(dst, i, Undefined)
  }

  /** An array is well-formed exactly when each of its items is. */
  lemma {:induction false} SlotsWellFormedAll(a: seq<Slot>)
    ensures SlotsWellFormed(a) <==> forall i :: 0 <= i < |a| && a[i].Item? ==> WellFormed(a[i].value)
    decreases |a|
  {
    if |a| > 0 {
      SlotsWellFormedAll(a[1..]);
      assert forall i :: 1 <= i < |a| ==> a[1..][i - 1] == a[i];
    }
  }

  /** An object's fields are well-formed exactly when each value is. */
  lemma {:induction false} FieldsWellFormedAll(fs: seq<Field>)
    ensures FieldsWellFormed(fs) <==> forall i :: 0 <= i < |fs| ==> WellFormed(fs[i].val)
    decreases |fs|
  {
    if |fs| > 0 {
      FieldsWellFormedAll(fs[1..]);
      assert forall i :: 1 <= i < |fs| ==> fs[1..][i - 1] == fs[i];
    }
  }

  lemma AssignWellFormed(a: seq<Slot>, i: nat, v: Value)
    requires SlotsWellFormed(a) && WellFormed(v)
    ensures SlotsWellFormed(Assign(a, i, v))
  {
    SlotsWellFormedAll(a);
    SlotsWellFormedAll(Assign(a, i, v));
  }

  /** A key the source does not have reads what it read in the destination
      before `_.merge`. */
  lemma {:induction false} MergeGetOther(dst: seq<Field>, src: seq<Field>, k: string)
    requires k !in KeysOf(src)
    ensures Get(Merge(dst, src), k) == Get(dst, k)
    ensures k in KeysOf(Merge(dst, src)) <==> k in KeysOf(dst)
    decreases src
  {
    if |src| > 0 {
      assert KeysOf(src) == [src[0].key] + KeysOf(src[1..]);
      MergeFieldOther(dst, src[0], k);
      MergeGetOther(MergeField(dst, src[0]), src[1..], k);
    }
  }

  lemma MergeFieldOther(dst: seq<Field>, f: Field, k: string)
    requires f.key != k
    ensures Get(MergeField(dst, f), k) == Get(dst, k)
    ensures k in KeysOf(MergeField(dst, f)) <==> k in KeysOf(dst)
  {
  }

  /** A key the source has reads, after `_.merge`, the source's value merged
      onto the destination's, except that an undefined source value leaves
      a key the destination already has untouched. */
  lemma {:induction false} MergeGet(dst: seq<Field>, src: seq<Field>, i: nat)
    requires DistinctKeys(src) && i < |src|
    ensures var k := src[i].key;
            Get(Merge(dst, src), k) ==
              if src[i].val.Undefined? && k in KeysOf(dst) then Get(dst, k)
              else MergeValue(Get(dst, k), src[i].val)
    decreases src
  {
    var k := src[i].key;
    var d1 := MergeField(dst, src[0]);
    assert Merge(dst, src) == Merge(d1, src[1..]);
    if i == 0 {
      assert k !in KeysOf(src[1..]) by {
        forall j | 0 <= j < |src| - 1 ensures KeysOf(src[1..])[j] != k {
          assert src[1..][j] == src[j + 1];
        }
      }
      MergeGetOther(d1, src[1..], k);
    } else {
      assert src[0].key != k;
      MergeFieldOther(dst, src[0], k);
      assert src[1..][i - 1] == src[i];
      MergeGet(d1, src[1..], i - 1);
    }
  }

  /** `_.merge` keeps every object inside the result a proper JavaScript
      object. */
  lemma {:induction false} MergeWellFormed(dst: seq<Field>, src: seq<Field>)
    requires WellFormed(Obj(dst)) && FieldsWellFormed(src)
    ensures WellFormed(Obj(Merge(dst, src)))
    decreases src
  {
    if |src| > 0 {
      MergeFieldWellFormed(dst, src[0]);
      MergeWellFormed(MergeField(dst, src[0]), src[1..]);
    }
  }

  lemma {:induction false} MergeFieldWellFormed(dst: seq<Field>, f: Field)
    requires WellFormed(Obj(dst)) && WellFormed(f.val)
    ensures WellFormed(Obj(MergeField(dst, f)))
    decreases f
  {
    if !(f.val.Undefined? && f.key in KeysOf(dst)) {
      GetWellFormed(dst, f.key);
      MergeValueWellFormed(Get(dst, f.key), f.val);
      PutWellFormed(dst, f.key, MergeValue(Get(dst, f.key), f.val));
    }
  }

  lemma {:induction false} MergeValueWellFormed(d: Value, s: Value)
    requires WellFormed(d) && WellFormed(s)
    ensures WellFormed(MergeValue(d, s))
    decreases s
  {
    match s
    case Obj(sfs) => MergeWellFormed(if d.Obj? then d.fields else [], sfs);
    case Arr(sa) => MergeSlotsFromWellFormed(if d.Arr? then d.items else [], sa, 0);
    case _ =>
  }

  lemma {:induction false} MergeSlotsFromWellFormed(dst: seq<Slot>, src: seq<Slot>, i: nat)
    requires i <= |src| && SlotsWellFormed(dst) && SlotsWellFormed(src)
    ensures SlotsWellFormed(MergeSlotsFrom(dst, src, i))
    decreases src, |src| - i
  {
    if i < |src| {
      if src[i].Item? { SlotsWellFormedAt(src, i); }
      MergeSlotWellFormed(dst, i, src[i]);
      MergeSlotsFromWellFormed(MergeSlot(dst, i, src[i]), src, i + 1);
    }
  }

  lemma {:induction false} MergeSlotWellFormed(dst: seq<Slot>, i: nat, s: Slot)
    requires SlotsWellFormed(dst) && SlotWellFormed(s)
    ensures SlotsWellFormed(MergeSlot(dst, i, s))
    decreases s
  {
    match s
    case Item(sv) =>
      if !(sv.Undefined? && i < |dst| && dst[i].Item?) {
        if i < |dst| && dst[i].Item? { SlotsWellFormedAt(dst, i); }
        MergeValueWellFormed(SlotValue(dst, i), sv);
        AssignWellFormed(dst, i, MergeValue(SlotValue(dst, i), sv));
      }
    case Hole =>
      if !(i < |dst| && dst[i].Item?) { AssignWellFormed(dst, i, Undefined); }
  }

  /** `Object.assign(dst, src)`: the source's own keys, in order, with
      their values (undefined included). */
  function ShallowAssign(dst: seq<Field>, src: seq<Field>): (r: seq<Field>)
    ensures forall k :: k in KeysOf(dst) ==> k in KeysOf(r)
    ensures forall k :: k in KeysOf(src) ==> k in KeysOf(r)
    decreases src
  {
    if |src| == 0 then dst else ShallowAssign(Put(dst, src[0].key, src[0].val), src[1..])
  }

  /** After `Object.assign` every source key has the source's value and
      every other key keeps the destination's. */
  lemma {:induction false} ShallowAssignGet(dst: seq<Field>, src: seq<Field>, k: string)
    requires DistinctKeys(src)
    ensures Get(ShallowAssign(dst, src), k) == if k in KeysOf(src) then Get(src, k) else Get(dst, k)
    decreases src
  {
    if |src| == 0 {
      assert KeysOf(src) == [];
    } else {
      assert KeysOf(src) == [src[0].key] + KeysOf(src[1..]);
      ShallowAssignGet(Put(dst, src[0].key, src[0].val), src[1..], k);
      if k == src[0].key {
        assert k !in KeysOf(src[1..]);
      }
    }
  }

  lemma {:induction false} ShallowAssignWellFormed(dst: seq<Field>, src: seq<Field>)
    requires WellFormed(Obj(dst)) && FieldsWellFormed(src)
    ensures WellFormed(Obj(ShallowAssign(dst, src)))
    decreases src
  {
    if |src| > 0 {
      PutWellFormed(dst, src[0].key, src[0].val);
      ShallowAssignWellFormed(Put(dst, src[0].key, src[0].val), src[1..]);
    }
  }

  /** Keys `Object.assign` adds come from the source; old keys stay. */
  lemma {:induction false} ShallowAssignKeys(dst: seq<Field>, src: seq<Field>)
    ensures forall k :: k in KeysOf(ShallowAssign(dst, src)) <==> k in KeysOf(dst) || k in KeysOf(src)
    decreases src
  {
    if |src| > 0 {
      assert KeysOf(src) == [src[0].key] + KeysOf(src[1..]);
      ShallowAssignKeys(Put(dst, src[0].key, src[0].val), src[1..]);
    } else {
      assert KeysOf(src) == [];
    }
  }
}
