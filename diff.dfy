/**
 * The structural diff engine of src/utils/diff.ts.
 *
 * `diff` and `compare` classify both operands with `typeOf`, refuse a
 * mismatch, and hand over to one handler per class. Each handler walks the
 * TARGET (its keys, its indices or its characters) and records, at every
 * position where the source differs, the target's value in `origins` and the
 * source's in `changes`. Arrays built this way are sparse: a position that
 * was never assigned is a hole.
 *
 * The walks are given twice: as recursive functions over growing prefixes
 * of the target (ObjectWalk, ArrayWalk, StringWalk, DateDelta), which the
 * lemmas of module DiffLemmas reason about, and as the loops the source runs
 * (ObjectDiff, ArrayDiff, StringDiff, DateDiff), each proved to compute its
 * function.
 */
module DiffEngine {
  import opened JsValues
  import opened Text

  const DIFF_MISMATCH := "Diff Error: Target and Source must be on the same type!"
  const COMPARE_MISMATCH := "Compare Error: Target and Source must be on the same type!"

  /** Why a diff gives no result. */
  datatype DiffError =
    /** The error `diff` and `compare` throw when the operands' classes differ. */
    | TypeMismatch(message: string)
    /** A nested walk met, at one key, two values that share the `typeof`
        "object" but not the class, where the source throws: it reads a
        property of null, spreads an object or a date that is longer than
        the target array by its `length` property, or takes the ISO text
        of the invalid date an object or an array makes. */
    | Fault

  datatype Result<T> = Ok(value: T) | Err(error: DiffError) {
    predicate IsFailure() { Err? }
    function PropagateFailure<U>(): Result<U> requires Err? { Err(error) }
    function Extract(): T requires Ok? { value }
  }

  /** What one position of a walk records. */
  datatype Change = Unchanged | Changed(origin: Value, change: Value)

  /** The `origins` and `changes` objects of an object or date walk. */
  datatype ObjectDelta = ObjectDelta(origins: seq<Field>, changes: seq<Field>)

  /** The `origins` and `changes` arrays of an array or string walk. */
  datatype ArrayDelta = ArrayDelta(origins: seq<Slot>, changes: seq<Slot>)

  /** What `compare` returns: undefined for classes without a handler. */
  datatype Comparison = NoComparison | Comparison(origins: Value, changes: Value)

  /** `arr.filter(item => item).length > 0`: some assigned item is truthy. */
  predicate AnyTruthy(a: seq<Slot>) {
    exists i :: 0 <= i < |a| && a[i].Item? && Truthy(a[i].value)
  }

  // ---------------------------------------------------------------------
  // objectDiff
  // ---------------------------------------------------------------------

  /** The body of objectDiff's loop for one key: what it records for the
      target value `v` when the source holds `sv` at the same key. */
  function KeyChange(v: Value, sv: Value, deep: bool): (r: Result<Change>)
    ensures r.Err? ==> r.error == Fault
    decreases v
  {
    if TypeofTag(v) != TypeofTag(sv) then Ok(Changed(v, sv))
    else match v
      case Arr(a) =>
        if !deep then
          Ok(if StringifyEq(v, sv) then Unchanged else Changed(v, sv))
        else
          var d :- ArrayWalkOn(a, sv);
          Ok(if AnyTruthy(d.changes) then Changed(Arr(d.origins), Arr(d.changes)) else Unchanged)
      case Obj(fs) =>
        if sv.Null? then
          if |fs| == 0 then Ok(Unchanged) else Err(Fault)
        else
          var d :- ObjectWalk(fs, OwnProps(sv), deep);
          Ok(if |d.changes| > 0 then Changed(Obj(d.origins), Obj(d.changes)) else Unchanged)
      case DateVal(t) =>
        if sv.DateVal? then Ok(if v == sv then Unchanged else Changed(v, sv))
        else if sv.Null? then Ok(if t == EPOCH then Unchanged else Changed(v, sv))
        else Err(Fault)
      case _ =>
        Ok(if v != sv then Changed(v, sv) else Unchanged)
  }

  /** objectDiff over the target's fields `t` (in `Object.entries` order)
      against the source's fields `s`. */
  function ObjectWalk(t: seq<Field>, s: seq<Field>, deep: bool): (r: Result<ObjectDelta>)
    ensures r.Ok? ==> KeysOf(r.value.origins) == KeysOf(r.value.changes)
    ensures r.Ok? ==> forall k :: k in KeysOf(r.value.changes) ==> k in KeysOf(t)
    ensures r.Ok? ==> DistinctKeys(r.value.changes) && DistinctKeys(r.value.origins)
    ensures r.Err? ==> r.error == Fault
    decreases t
  {
    if |t| == 0 then Ok(ObjectDelta([], []))
    else
      var d :- ObjectWalk(t[..|t| - 1], s, deep);
      var f := t[|t| - 1];
      var c :- KeyChange(f.val, Get(s, f.key), deep);
      assert forall k :: k in KeysOf(t[..|t| - 1]) ==> k in KeysOf(t) by {
        forall k | k in KeysOf(t[..|t| - 1]) ensures k in KeysOf(t) {
          var j :| 0 <= j < |t| - 1 && KeysOf(t[..|t| - 1])[j] == k;
          assert KeysOf(t)[j] == k;
        }
      }
      Ok(Record(d, f.key, c))
  }

  /** Writing one key's outcome into `origins` and `changes`. */
  function Record(d: ObjectDelta, key: string, c: Change): (r: ObjectDelta)
    ensures KeysOf(d.origins) == KeysOf(d.changes) ==> KeysOf(r.origins) == KeysOf(r.changes)
    ensures forall k :: k in KeysOf(r.changes) ==> k in KeysOf(d.changes) || k == key
    ensures DistinctKeys(d.changes) && DistinctKeys(d.origins) ==>
              DistinctKeys(r.changes) && DistinctKeys(r.origins)
  {
    match c
    case Unchanged => d
    case Changed(o, n) => ObjectDelta(Put(d.origins, key, o), Put(d.changes, key, n))
  }

  // ---------------------------------------------------------------------
  // arrayDiff
  // ---------------------------------------------------------------------

  /** The body of arrayDiff's `forEach` for one element `x` of the target
      against `sv`, the source's element at the same index. Nested objects
      are always walked with deep array diffing. */
  function ElemChange(x: Value, sv: Value): (r: Result<Change>)
    ensures r.Err? ==> r.error == Fault
    decreases x
  {
    if TypeOf(x) != TypeOf(sv) then Ok(Changed(x, sv))
    else match x
      case Obj(fs) =>
        var d :- ObjectWalk(fs, sv.fields, true);
        Ok(if |d.changes| > 0 then Changed(Obj(d.origins), Obj(d.changes)) else Unchanged)
      case Arr(a) =>
        var d :- ArrayWalk(a, sv.items);
        Ok(if |d.changes| > 0 then Changed(Arr(d.origins), Arr(d.changes)) else Unchanged)
      case DateVal(_) =>
        Ok(if x == sv then Unchanged else Changed(x, sv))
      case _ =>
        Ok(if x != sv then Changed(x, sv) else Unchanged)
  }

  /** `forEach` skips holes of the target. */
  function SlotChange(ts: Slot, sv: Value): (r: Result<Change>)
    ensures r.Err? ==> r.error == Fault
    decreases ts
  {
    match ts
    case Hole => Ok(Unchanged)
    case Item(x) => ElemChange(x, sv)
  }

  /** The `forEach` part of arrayDiff over the target's slots `t`. */
  function ArrayPrefix(t: seq<Slot>, s: seq<Slot>): (r: Result<ArrayDelta>)
    ensures r.Ok? ==> |r.value.origins| == |r.value.changes| <= |t|
    ensures r.Err? ==> r.error == Fault
    decreases t, 0
  {
    if |t| == 0 then Ok(ArrayDelta([], []))
    else
      var d :- ArrayPrefix(t[..|t| - 1], s);
      var i := |t| - 1;
      var c :- SlotChange(t[i], SlotValue(s, i));
      Ok(Place(d, i, c))
  }

  /** Writing one index's outcome into `origins` and `changes`. */
  function Place(d: ArrayDelta, i: nat, c: Change): ArrayDelta {
    match c
    case Unchanged => d
    case Changed(o, n) => ArrayDelta(Assign(d.origins, i, o), Assign(d.changes, i, n))
  }

  /** `[...source].splice(0, n)`: the first `n` elements of the source, holes
      read as undefined by the spread. */
  function SpreadHead(s: seq<Slot>, n: nat): (r: seq<Slot>)
    requires n <= |s|
    ensures |r| == n && forall i :: 0 <= i < n ==> r[i] == Item(SlotValue(s, i))
  {
    seq(n, i requires 0 <= i < n => Item(SlotValue(s, i)))
  }

  /** arrayDiff: the element walk, then, when the source is longer, the
      source's first `|t|` elements pushed after the last assigned index of
      `changes` (what `changes.push(...[...source].splice(0, target.length))`
      does). */
  function ArrayWalk(t: seq<Slot>, s: seq<Slot>): (r: Result<ArrayDelta>)
    ensures r.Err? ==> r.error == Fault
    decreases t, 1
  {
    var d :- ArrayPrefix(t, s);
    Ok(if |t| < |s| then ArrayDelta(d.origins, d.changes + SpreadHead(s, |t|)) else d)
  }

  /** `source[i]`, for a source that is not null and whose `typeof` is
      "object": an array's element, otherwise the property named by the
      index's decimal text. */
  function ReadIndex(sv: Value, i: nat): Value {
    if sv.Arr? then SlotValue(sv.items, i) else Get(OwnProps(sv), IntToString(i))
  }

  /** `source.length`, for the same sources. */
  function ReadLength(sv: Value): Value {
    if sv.Arr? then Num(|sv.items|) else Get(OwnProps(sv), "length")
  }

  /** The first `n` reads `source[i]` of a source that is not an array, as
      slots the element walk can read. */
  function SourceSlots(sv: Value, n: nat): (r: seq<Slot>)
    ensures |r| == n && forall i :: 0 <= i < n ==> SlotValue(r, i) == ReadIndex(sv, i)
  {
    seq(n, i requires 0 <= i < n => Item(ReadIndex(sv, i)))
  }

  /** arrayDiff(target, source, true) for any source whose `typeof` is
      "object", as objectDiff's deep array branch calls it: a null source
      throws at `source[0]` or `source.length`; an object or a date is read
      by property, and when its `length` exceeds the target's, spreading it
      throws, since it is not iterable. */
  function ArrayWalkOn(t: seq<Slot>, sv: Value): (r: Result<ArrayDelta>)
    requires TypeofTag(sv) == "object"
    ensures r.Err? ==> r.error == Fault
    decreases t, 2
  {
    if sv.Null? then Err(Fault)
    else if sv.Arr? then ArrayWalk(t, sv.items)
    else
      var d :- ArrayPrefix(t, SourceSlots(sv, |t|));
      if NumberLess(|t|, ReadLength(sv)) then Err(Fault) else Ok(d)
  }

  // ---------------------------------------------------------------------
  // stringDiff
  // ---------------------------------------------------------------------

  /** stringDiff over the target's characters: at every index where the
      source's character differs (or is missing), the target's character
      goes to `origins` and the source's (or undefined) to `changes`. */
  function StringWalk(t: string, s: string): (r: ArrayDelta)
    ensures |r.origins| == |r.changes| <= |t|
    decreases |t|
  {
    if |t| == 0 then ArrayDelta([], [])
    else
      Place(StringWalk(t[..|t| - 1], s), |t| - 1, CharChange(t, s, |t| - 1))
  }

  /** What stringDiff records at index `i`: `source[i]` is undefined past
      the source's end. */
  function CharChange(t: string, s: string, i: nat): Change
    requires i < |t|
  {
    if i < |s| && t[i] == s[i] then Unchanged
    else Changed(Str([t[i]]), if i < |s| then Str([s[i]]) else Undefined)
  }

  // ---------------------------------------------------------------------
  // dateDiff
  // ---------------------------------------------------------------------

  /** The seven keys of a `DateChanges` object, in the order dateDiff
      writes them. */
  const DATE_KEYS: seq<string> := ["year", "month", "date", "hours", "minutes", "seconds", "milliseconds"]

  /** The seven local fields of a date, in the order of DATE_KEYS. */
  function DateParts(d: Date): (r: seq<int>)
    ensures |r| == 7
  {
    [d.year, d.month, d.day, d.hours, d.minutes, d.seconds, d.milliseconds]
  }

  /** The `changes` of dateDiff for the first `n` fields. */
  function DateChangesUpTo(t: Date, s: Date, n: nat): (r: seq<Field>)
    requires n <= 7
    ensures |r| <= n
    ensures t == s ==> r == []
  {
    if n == 0 then []
    else
      var rest := DateChangesUpTo(t, s, n - 1);
      if DateParts(t)[n - 1] != DateParts(s)[n - 1]
      then rest + [Field(DATE_KEYS[n - 1], Num(DateParts(s)[n - 1]))]
      else rest
  }

  /** dateDiff: `origins` holds all seven fields of the target, `changes`
      the source's value of each field that differs. */
  function DateDelta(t: Date, s: Date): (r: ObjectDelta)
    ensures |r.origins| == 7 && |r.changes| <= 7
    ensures t == s ==> r.changes == []
  {
    ObjectDelta(DateOrigins(t), DateChangesUpTo(t, s, 7))
  }

  /** Each of the seven fields of a date under its key. */
  function DateOrigins(t: Date): seq<Field> {
    [Field("year", Num(t.year)), Field("month", Num(t.month)), Field("date", Num(t.day)),
     Field("hours", Num(t.hours)), Field("minutes", Num(t.minutes)),
     Field("seconds", Num(t.seconds)), Field("milliseconds", Num(t.milliseconds))]
  }

  // ---------------------------------------------------------------------
  // diff and compare: dispatch on the class of the target
  // ---------------------------------------------------------------------

  /** `diff(target, source, deepArray)`: the `changes` of the handler for
      the target's class, undefined for the classes without one. */
  function Diff(target: Value, source: Value, deep: bool): (r: Result<Value>)
    ensures TypeOf(target) != TypeOf(source) ==> r == Err(TypeMismatch(DIFF_MISMATCH))
    ensures r.Err? ==> r.error == TypeMismatch(DIFF_MISMATCH) || r.error == Fault
    ensures r.Ok? && target.Obj? ==>
              r.value.Obj? && forall k :: k in KeysOf(r.value.fields) ==> k in KeysOf(target.fields)
    ensures r.Ok? && target.Str? ==> r.value.Arr? && |r.value.items| <= |target.s|
    ensures r.Ok? && target.DateVal? ==> r.value.Obj? && |r.value.fields| <= 7
  {
    if TypeOf(target) != TypeOf(source) then Err(TypeMismatch(DIFF_MISMATCH))
    else match target
      case Arr(a) =>
        var d :- ArrayWalk(a, source.items);
        Ok(Arr(d.changes))
      case Obj(fs) =>
        var d :- ObjectWalk(fs, source.fields, deep);
        Ok(Obj(d.changes))
      case DateVal(t) => Ok(Obj(DateDelta(t, source.date).changes))
      case Str(t) => Ok(Arr(StringWalk(t, source.s).changes))
      case _ => Ok(Undefined)
  }

  /** `compare(target, source, deepArray)`: both halves of the handler's
      result. */
  function Compare(target: Value, source: Value, deep: bool): (r: Result<Comparison>)
    ensures TypeOf(target) != TypeOf(source) ==> r == Err(TypeMismatch(COMPARE_MISMATCH))
    ensures r.Err? ==> r.error == TypeMismatch(COMPARE_MISMATCH) || r.error == Fault
    ensures r.Ok? && target.Obj? ==>
              r.value.Comparison? && r.value.origins.Obj? && r.value.changes.Obj? &&
              KeysOf(r.value.origins.fields) == KeysOf(r.value.changes.fields)
    ensures r.Ok? && target.Str? ==>
              r.value.Comparison? && r.value.origins.Arr? && r.value.changes.Arr? &&
              |r.value.origins.items| == |r.value.changes.items| <= |target.s|
    ensures r.Ok? && target.DateVal? ==>
              r.value.Comparison? && r.value.origins.Obj? && r.value.changes.Obj? &&
              |r.value.origins.fields| == 7 && |r.value.changes.fields| <= 7
  {
    if TypeOf(target) != TypeOf(source) then Err(TypeMismatch(COMPARE_MISMATCH))
    else match target
      case Str(t) =>
        var d := StringWalk(t, source.s);
        Ok(Comparison(Arr(d.origins), Arr(d.changes)))
      case DateVal(t) =>
        var d := DateDelta(t, source.date);
        Ok(Comparison(Obj(d.origins), Obj(d.changes)))
      case Obj(fs) =>
        var d :- ObjectWalk(fs, source.fields, deep);
        Ok(Comparison(Obj(d.origins), Obj(d.changes)))
      case Arr(a) =>
        var d :- ArrayWalk(a, source.items);
        Ok(Comparison(Arr(d.origins), Arr(d.changes)))
      case _ => Ok(NoComparison)
  }

  // ---------------------------------------------------------------------
  // The loops of the source, proved to compute the walks above
  // ---------------------------------------------------------------------

  /** Once a prefix of the target faults, the whole object walk faults the
      same way. */
  lemma {:induction false} ObjectWalkErrExtends(t: seq<Field>, s: seq<Field>, deep: bool, n: nat)
    requires n <= |t| && ObjectWalk(t[..n], s, deep).Err?
    ensures ObjectWalk(t, s, deep) == ObjectWalk(t[..n], s, deep)
    decreases |t|
  {
    if n < |t| {
      var u := t[..|t| - 1];
      assert u[..n] == t[..n];
      ObjectWalkErrExtends(u, s, deep, n);
    } else {
      assert t[..n] == t;
    }
  }

  /** One step of objectDiff's loop. */
  lemma ObjectWalkStep(t: seq<Field>, s: seq<Field>, deep: bool, i: nat, d: ObjectDelta)
    requires i < |t| && ObjectWalk(t[..i], s, deep) == Ok(d)
    ensures ObjectWalk(t[..i + 1], s, deep) ==
      match KeyChange(t[i].val, Get(s, t[i].key), deep)
      case Err(e) => Err(e)
      case Ok(c) => Ok(Record(d, t[i].key, c))
  {
    assert t[..i + 1][..i] == t[..i];
    assert t[..i + 1][i] == t[i];
  }

  /** One step of arrayDiff's `forEach`. */
  lemma ArrayPrefixStep(t: seq<Slot>, s: seq<Slot>, i: nat, d: ArrayDelta)
    requires i < |t| && ArrayPrefix(t[..i], s) == Ok(d)
    ensures ArrayPrefix(t[..i + 1], s) ==
      match SlotChange(t[i], SlotValue(s, i))
      case Err(e) => Err(e)
      case Ok(c) => Ok(Place(d, i, c))
  {
    assert t[..i + 1][..i] == t[..i];
    assert t[..i + 1][i] == t[i];
  }

  lemma {:induction false} ArrayPrefixErrExtends(t: seq<Slot>, s: seq<Slot>, n: nat)
    requires n <= |t| && ArrayPrefix(t[..n], s).Err?
    ensures ArrayPrefix(t, s) == ArrayPrefix(t[..n], s)
    decreases |t|
  {
    if n < |t| {
      var u := t[..|t| - 1];
      assert u[..n] == t[..n];
      ArrayPrefixErrExtends(u, s, n);
    } else {
      assert t[..n] == t;
    }
  }

  /** objectDiff(target, source, deepArray, true), for a source that is
      not null and whose `typeof` is "object"; `source[key]` reads its own
      properties. */
  method ObjectDiff(target: Value, source: Value, deep: bool) returns (r: Result<ObjectDelta>)
    requires target.Obj? && TypeofTag(source) == "object" && !source.Null?
    ensures r == ObjectWalk(target.fields, OwnProps(source), deep)
    decreases target, 0
  {
    var t, s := target.fields, OwnProps(source);
    var origins: seq<Field> := [];
    var changes: seq<Field> := [];
    for i := 0 to |t|
      invariant ObjectWalk(t[..i], s, deep) == Ok(ObjectDelta(origins, changes))
    {
      var key, value := t[i].key, t[i].val;
      var sv := Get(s, key);
      ObjectWalkStep(t, s, deep, i, ObjectDelta(origins, changes));
      var c := KeyDiff(value, sv, deep);
      if c.Err? {
        ObjectWalkErrExtends(t, s, deep, i + 1);
        return Err(c.error);
      }
      if c.value.Changed? {
        origins := Put(origins, key, c.value.origin);
        changes := Put(changes, key, c.value.change);
      }
    }
    assert t[..|t|] == t;
    return Ok(ObjectDelta(origins, changes));
  }

  /** The body of objectDiff's loop for one key. */
  method KeyDiff(value: Value, sv: Value, deep: bool) returns (c: Result<Change>)
    ensures c == KeyChange(value, sv, deep)
    decreases value, 1
  {
    if TypeofTag(value) != TypeofTag(sv) {
      return Ok(Changed(value, sv));
    } else if value.Arr? {
      if !deep {
        return Ok(if StringifyEq(value, sv) then Unchanged else Changed(value, sv));
      }
      var arr := ArrayDiff(value, sv);
      if arr.Err? {
        return Err(arr.error);
      }
      return Ok(if AnyTruthy(arr.value.changes) then Changed(Arr(arr.value.origins), Arr(arr.value.changes)) else Unchanged);
    } else if value.Obj? {
      if sv.Null? {
        return if |value.fields| == 0 then Ok(Unchanged) else Err(Fault);
      }
      var obj := ObjectDiff(value, sv, deep);
      if obj.Err? {
        return Err(obj.error);
      }
      return Ok(if |obj.value.changes| > 0 then Changed(Obj(obj.value.origins), Obj(obj.value.changes)) else Unchanged);
    } else if value.DateVal? {
      if sv.DateVal? {
        return Ok(if value == sv then Unchanged else Changed(value, sv));
      } else if sv.Null? {
        return Ok(if value.date == EPOCH then Unchanged else Changed(value, sv));
      }
      return Err(Fault);
    } else {
      return Ok(if value != sv then Changed(value, sv) else Unchanged);
    }
  }

  /** arrayDiff(target, source, true), for a source whose `typeof` is
      "object". */
  method ArrayDiff(target: Value, source: Value) returns (r: Result<ArrayDelta>)
    requires target.Arr? && TypeofTag(source) == "object"
    ensures r == ArrayWalkOn(target.items, source)
    decreases target, 0
  {
    if source.Null? {
      return Err(Fault);
    }
    var t := target.items;
    ghost var s := if source.Arr? then source.items else SourceSlots(source, |t|);
    var origins: seq<Slot> := [];
    var changes: seq<Slot> := [];
    for i := 0 to |t|
      invariant ArrayPrefix(t[..i], s) == Ok(ArrayDelta(origins, changes))
    {
      var c: Change := Unchanged;
      if t[i].Item? {
        var sv := ReadIndex(source, i);
        assert sv == SlotValue(s, i);
        var e := ElemDiff(t[i].value, sv);
        if e.Err? {
          ArrayPrefixStep(t, s, i, ArrayDelta(origins, changes));
          ArrayPrefixErrExtends(t, s, i + 1);
          return Err(e.error);
        }
        c := e.value;
      }
      ArrayPrefixStep(t, s, i, ArrayDelta(origins, changes));
      if c.Changed? {
        origins := Assign(origins, i, c.origin);
        changes := Assign(changes, i, c.change);
      }
    }
    assert t[..|t|] == t;
    if NumberLess(|t|, ReadLength(source)) {
      if !source.Arr? {
        return Err(Fault);
      }
      changes := changes + SpreadHead(source.items, |t|);
    }
    return Ok(ArrayDelta(origins, changes));
  }

  /** The body of arrayDiff's `forEach` for one element. */
  method ElemDiff(item: Value, sv: Value) returns (c: Result<Change>)
    ensures c == ElemChange(item, sv)
    decreases item, 1
  {
    if TypeOf(item) != TypeOf(sv) {
      return Ok(Changed(item, sv));
    } else if item.Obj? {
      var obj := ObjectDiff(item, sv, true);
      if obj.Err? {
        return Err(obj.error);
      }
      return Ok(if |obj.value.changes| > 0 then Changed(Obj(obj.value.origins), Obj(obj.value.changes)) else Unchanged);
    } else if item.Arr? {
      var arr := ArrayDiff(item, sv);
      if arr.Err? {
        return Err(arr.error);
      }
      return Ok(if |arr.value.changes| > 0 then Changed(Arr(arr.value.origins), Arr(arr.value.changes)) else Unchanged);
    } else if item.DateVal? {
      return Ok(if item == sv then Unchanged else Changed(item, sv));
    } else {
      return Ok(if item != sv then Changed(item, sv) else Unchanged);
    }
  }

  /** stringDiff(target, source, true). */
  method StringDiff(target: string, source: string) returns (d: ArrayDelta)
    ensures d == StringWalk(target, source)
  {
    var origins: seq<Slot> := [];
    var changes: seq<Slot> := [];
    for i := 0 to |target|
      invariant StringWalk(target[..i], source) == ArrayDelta(origins, changes)
    {
      assert target[..i + 1][..i] == target[..i];
      assert target[..i + 1][i] == target[i];
      if !(i < |source| && target[i] == source[i]) {
        origins := Assign(origins, i, Str([target[i]]));
        changes := Assign(changes, i, if i < |source| then Str([source[i]]) else Undefined);
      }
    }
    assert target[..|target|] == target;
    return ArrayDelta(origins, changes);
  }

  /** One of dateDiff's seven checks: a field whose values differ is added
      with the source's value. */
  function DateCheck(changes: seq<Field>, key: string, t: int, s: int): seq<Field> {
    if t != s then changes + [Field(key, Num(s))] else changes
  }

  /** The seven checks of dateDiff, one after another, are the `changes`
      of the first `n` fields for n = 7. */
  lemma DateChecks(t: Date, s: Date)
    ensures DateChangesUpTo(t, s, 7) ==
              DateCheck(DateCheck(DateCheck(DateCheck(DateCheck(DateCheck(DateCheck(
                [], "year", t.year, s.year), "month", t.month, s.month), "date", t.day, s.day),
                "hours", t.hours, s.hours), "minutes", t.minutes, s.minutes),
                "seconds", t.seconds, s.seconds), "milliseconds", t.milliseconds, s.milliseconds)
  {
    var c1 := DateCheck([], "year", t.year, s.year);
    assert DateChangesUpTo(t, s, 1) == c1;
    var c2 := DateCheck(c1, "month", t.month, s.month);
    assert DateChangesUpTo(t, s, 2) == c2;
    var c3 := DateCheck(c2, "date", t.day, s.day);
    assert DateChangesUpTo(t, s, 3) == c3;
    var c4 := DateCheck(c3, "hours", t.hours, s.hours);
    assert DateChangesUpTo(t, s, 4) == c4;
    var c5 := DateCheck(c4, "minutes", t.minutes, s.minutes);
    assert DateChangesUpTo(t, s, 5) == c5;
    var c6 := DateCheck(c5, "seconds", t.seconds, s.seconds);
    assert DateChangesUpTo(t, s, 6) == c6;
  }

  /** dateDiff(target, source, true). */
  method DateDiff(target: Date, source: Date) returns (d: ObjectDelta)
    ensures d == DateDelta(target, source)
  {
    var origins := [Field("year", Num(target.year)), Field("month", Num(target.month)),
                    Field("date", Num(target.day)), Field("hours", Num(target.hours)),
                    Field("minutes", Num(target.minutes)), Field("seconds", Num(target.seconds)),
                    Field("milliseconds", Num(target.milliseconds))];
    var changes: seq<Field> := [];
    if target.year != source.year {
      changes := changes + [Field("year", Num(source.year))];
    }
    if target.month != source.month {
      changes := changes + [Field("month", Num(source.month))];
    }
    if target.day != source.day {
      changes := changes + [Field("date", Num(source.day))];
    }
    if target.hours != source.hours {
      changes := changes + [Field("hours", Num(source.hours))];
    }
    if target.minutes != source.minutes {
      changes := changes + [Field("minutes", Num(source.minutes))];
    }
    if target.seconds != source.seconds {
      changes := changes + [Field("seconds", Num(source.seconds))];
    }
    if target.milliseconds != source.milliseconds {
      changes := changes + [Field("milliseconds", Num(source.milliseconds))];
    }
    DateChecks(target, source);
    d := ObjectDelta(origins, changes);
  }
}
