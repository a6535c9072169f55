/**
 * Properties of the diff engine: what `diff` and `compare` refuse, what an
 * object walk records key by key, that a value has no difference with
 * itself or with its JSON copy, and the shape of array, string and date
 * differences.
 */
module DiffLemmas {
  import opened JsValues
  import opened DiffEngine
  import opened Text

  // ---------------------------------------------------------------------
  // Dispatch
  // ---------------------------------------------------------------------

  /** `diff` throws its type error exactly when the classes differ; any
      other failure is a nested fault. */
  lemma DiffMismatch(t: Value, s: Value, deep: bool)
    ensures Diff(t, s, deep) == Err(TypeMismatch(DIFF_MISMATCH)) <==> TypeOf(t) != TypeOf(s)
    ensures Compare(t, s, deep) == Err(TypeMismatch(COMPARE_MISMATCH)) <==> TypeOf(t) != TypeOf(s)
    ensures TypeOf(t) == TypeOf(s) && Diff(t, s, deep).Err? ==> Diff(t, s, deep).error == Fault
    ensures TypeOf(t) == TypeOf(s) && Compare(t, s, deep).Err? ==> Compare(t, s, deep).error == Fault
  {
  }

  /** Classes without a handler give undefined. */
  lemma DiffNoHandler(t: Value, s: Value, deep: bool)
    requires TypeOf(t) == TypeOf(s)
    requires TypeOf(t) in {BooleanKind, NumberKind, FunctionKind, NullishKind}
    ensures Diff(t, s, deep) == Ok(Undefined)
    ensures Compare(t, s, deep) == Ok(NoComparison)
  {
  }

  /** `diff` is the `changes` half of `compare`. */
  lemma DiffIsChangesOfCompare(t: Value, s: Value, deep: bool)
    requires TypeOf(t) == TypeOf(s)
    ensures Diff(t, s, deep).Ok? <==> Compare(t, s, deep).Ok?
    ensures Diff(t, s, deep).Ok? && Compare(t, s, deep).value.Comparison? ==>
              Diff(t, s, deep).value == Compare(t, s, deep).value.changes
  {
  }

  // ---------------------------------------------------------------------
  // objectDiff, key by key
  // ---------------------------------------------------------------------

  /** A successful walk succeeded at every key. */
  lemma ObjectWalkOkAt(t: seq<Field>, s: seq<Field>, deep: bool, i: nat)
    requires i < |t| && ObjectWalk(t, s, deep).Ok?
    ensures ObjectWalk(t[..i], s, deep).Ok?
    ensures KeyChange(t[i].val, Get(s, t[i].key), deep).Ok?
  {
    if ObjectWalk(t[..i], s, deep).Err? {
      ObjectWalkErrExtends(t, s, deep, i);
    } else {
      ObjectWalkStep(t, s, deep, i, ObjectWalk(t[..i], s, deep).value);
      if KeyChange(t[i].val, Get(s, t[i].key), deep).Err? {
        ObjectWalkErrExtends(t, s, deep, i + 1);
      }
    }
  }

  /** The object walk succeeds exactly when no key of the target faults. */
  lemma {:induction false} ObjectWalkOk(t: seq<Field>, s: seq<Field>, deep: bool)
    ensures ObjectWalk(t, s, deep).Ok? <==>
              forall i :: 0 <= i < |t| ==> KeyChange(t[i].val, Get(s, t[i].key), deep).Ok?
    decreases |t|
  {
    if ObjectWalk(t, s, deep).Ok? {
      forall i | 0 <= i < |t| ensures KeyChange(t[i].val, Get(s, t[i].key), deep).Ok? {
        ObjectWalkOkAt(t, s, deep, i);
      }
    } else if |t| > 0 {
      var n := |t| - 1;
      var u := t[..n];
      ObjectWalkOk(u, s, deep);
      assert t[..n + 1] == t;
      if ObjectWalk(u, s, deep).Ok? {
        ObjectWalkStep(t, s, deep, n, ObjectWalk(u, s, deep).value);
      } else {
        var i :| 0 <= i < |u| && KeyChange(u[i].val, Get(s, u[i].key), deep).Err?;
        assert u[i] == t[i];
      }
    }
  }

  /** Key `k` of delta `d` holds what `c` says: present in `changes`
      exactly when `c` is a change, and then with both of its sides. */
  predicate Holds(d: ObjectDelta, k: string, c: Change) {
    (k in KeysOf(d.changes) <==> c.Changed?) &&
    (c.Changed? ==> Get(d.origins, k) == c.origin && Get(d.changes, k) == c.change)
  }

  /** Recording one key leaves every other key as it was. */
  lemma RecordKeepsOthers(d: ObjectDelta, k: string, c: Change, k2: string, c2: Change)
    requires k2 != k && KeysOf(d.origins) == KeysOf(d.changes) && Holds(d, k2, c2)
    ensures Holds(Record(d, k, c), k2, c2)
  {
  }

  lemma RecordHolds(d: ObjectDelta, k: string, c: Change)
    requires k !in KeysOf(d.changes)
    ensures Holds(Record(d, k, c), k, c)
  {
  }

  /** What the walk records at every key of a target with distinct keys:
      the key is in `changes` exactly when its step reports a change, and
      then `origins` holds the target's side and `changes` the source's. */
  lemma {:induction false} ObjectWalkRecords(t: seq<Field>, s: seq<Field>, deep: bool)
    requires DistinctKeys(t) && ObjectWalk(t, s, deep).Ok?
    ensures forall i :: 0 <= i < |t| ==>
              KeyChange(t[i].val, Get(s, t[i].key), deep).Ok? &&
              Holds(ObjectWalk(t, s, deep).value, t[i].key, KeyChange(t[i].val, Get(s, t[i].key), deep).value)
    decreases |t|
  {
    if |t| > 0 {
      var n := |t| - 1;
      var u := t[..n];
      ObjectWalkOkAt(t, s, deep, n);
      ObjectWalkRecords(u, s, deep);
      var d0 := ObjectWalk(u, s, deep).value;
      var c := KeyChange(t[n].val, Get(s, t[n].key), deep).value;
      var d := ObjectWalk(t, s, deep).value;
      assert t[..n + 1] == t;
      ObjectWalkStep(t, s, deep, n, d0);
      assert d == Record(d0, t[n].key, c);
      assert t[n].key !in KeysOf(u) by {
        assert forall j :: 0 <= j < |u| ==> KeysOf(u)[j] == t[j].key;
      }
      forall i | 0 <= i < |t|
        ensures KeyChange(t[i].val, Get(s, t[i].key), deep).Ok?
        ensures Holds(d, t[i].key, KeyChange(t[i].val, Get(s, t[i].key), deep).value)
      {
        if i < n {
          assert u[i] == t[i];
          var ci := KeyChange(t[i].val, Get(s, t[i].key), deep).value;
          assert Holds(d0, t[i].key, ci);
          assert t[i].key != t[n].key;
          RecordKeepsOthers(d0, t[n].key, c, t[i].key, ci);
        } else {
          assert i == n;
          RecordHolds(d0, t[n].key, c);
          assert Holds(d, t[n].key, c);
        }
      }
    }
  }

  /** The walk reads the source only at the target's keys. */
  lemma {:induction false} ObjectWalkReadsTargetKeys(t: seq<Field>, s1: seq<Field>, s2: seq<Field>, deep: bool)
    requires forall i :: 0 <= i < |t| ==> Get(s1, t[i].key) == Get(s2, t[i].key)
    ensures ObjectWalk(t, s1, deep) == ObjectWalk(t, s2, deep)
    decreases |t|
  {
    if |t| > 0 {
      var u := t[..|t| - 1];
      assert forall i :: 0 <= i < |u| ==> u[i] == t[i];
      ObjectWalkReadsTargetKeys(u, s1, s2, deep);
    }
  }

  /** When every key of the target is unchanged, nothing is recorded. */
  lemma {:induction false} ObjectWalkAllUnchanged(t: seq<Field>, s: seq<Field>, deep: bool)
    requires forall i :: 0 <= i < |t| ==> KeyChange(t[i].val, Get(s, t[i].key), deep) == Ok(Unchanged)
    ensures ObjectWalk(t, s, deep) == Ok(ObjectDelta([], []))
    decreases |t|
  {
    if |t| > 0 {
      var u := t[..|t| - 1];
      assert forall i :: 0 <= i < |u| ==> u[i] == t[i];
      ObjectWalkAllUnchanged(u, s, deep);
    }
  }

  /** When every assigned slot of the target is unchanged, the element walk
      records nothing. */
  lemma {:induction false} ArrayPrefixAllUnchanged(t: seq<Slot>, s: seq<Slot>)
    requires forall i :: 0 <= i < |t| ==> SlotChange(t[i], SlotValue(s, i)) == Ok(Unchanged)
    ensures ArrayPrefix(t, s) == Ok(ArrayDelta([], []))
    decreases |t|
  {
    if |t| > 0 {
      var u := t[..|t| - 1];
      assert forall i :: 0 <= i < |u| ==> u[i] == t[i];
      ArrayPrefixAllUnchanged(u, s);
    }
  }

  // ---------------------------------------------------------------------
  // No difference with itself
  // ---------------------------------------------------------------------

  lemma {:induction false} KeyChangeSelf(v: Value, deep: bool)
    requires WellFormed(v)
    ensures KeyChange(v, v, deep) == Ok(Unchanged)
    decreases v, 1
  {
    match v
    case Arr(a) =>
      if deep {
        ArrayPrefixSelf(a);
        assert ArrayWalkOn(a, v) == ArrayWalk(a, a);
        assert !AnyTruthy([]);
      }
    case Obj(fs) =>
      assert OwnProps(v) == fs;
      ObjectWalkSelf(fs, deep);
    case _ =>
  }

  lemma {:induction false} ElemChangeSelf(v: Value)
    requires WellFormed(v)
    ensures ElemChange(v, v) == Ok(Unchanged)
    decreases v, 1
  {
    match v
    case Arr(a) => ArrayPrefixSelf(a);
    case Obj(fs) => ObjectWalkSelf(fs, true);
    case _ =>
  }

  lemma {:induction false} ObjectWalkSelf(fs: seq<Field>, deep: bool)
    requires DistinctKeys(fs) && FieldsWellFormed(fs)
    ensures ObjectWalk(fs, fs, deep) == Ok(ObjectDelta([], []))
    decreases fs, 0
  {
    forall i | 0 <= i < |fs|
      ensures KeyChange(fs[i].val, Get(fs, fs[i].key), deep) == Ok(Unchanged)
    {
      GetAt(fs, i);
      FieldsWellFormedAt(fs, i);
      KeyChangeSelf(fs[i].val, deep);
    }
    ObjectWalkAllUnchanged(fs, fs, deep);
  }

  lemma {:induction false} ArrayPrefixSelf(a: seq<Slot>)
    requires SlotsWellFormed(a)
    ensures ArrayPrefix(a, a) == Ok(ArrayDelta([], []))
    decreases a, 0
  {
    forall i | 0 <= i < |a|
      ensures SlotChange(a[i], SlotValue(a, i)) == Ok(Unchanged)
    {
      if a[i].Item? {
        SlotsWellFormedAt(a, i);
      }
      SlotChangeSelf(a[i]);
    }
    ArrayPrefixAllUnchanged(a, a);
  }

  lemma {:induction false} SlotChangeSelf(sl: Slot)
    requires SlotWellFormed(sl)
    ensures SlotChange(sl, if sl.Item? then sl.value else Undefined) == Ok(Unchanged)
    decreases sl
  {
    if sl.Item? {
      ElemChangeSelf(sl.value);
    }
  }

  lemma {:induction false} StringWalkSelf(t: string, s: string)
    requires |t| <= |s| && t == s[..|t|]
    ensures StringWalk(t, s) == ArrayDelta([], [])
    decreases |t|
  {
    if |t| > 0 {
      StringWalkSelf(t[..|t| - 1], s);
    }
  }

  /** A well-formed value has no difference with itself. */
  lemma DiffSelf(v: Value, deep: bool)
    requires WellFormed(v)
    ensures Diff(v, v, deep) == Ok(if v.Arr? || v.Str? then Arr([]) else if v.Obj? || v.DateVal? then Obj([]) else Undefined)
  {
    match v
    case Arr(a) => ArrayPrefixSelf(a);
    case Obj(fs) => ObjectWalkSelf(fs, deep);
    case Str(t) => StringWalkSelf(t, t);
    case DateVal(d) => DateChangesSelf(d, 7);
    case _ =>
  }

  lemma {:induction false} DateChangesSelf(d: Date, n: nat)
    requires n <= 7
    ensures DateChangesUpTo(d, d, n) == []
  {
    if n > 0 {
      DateChangesSelf(d, n - 1);
    }
  }

  // ---------------------------------------------------------------------
  // No difference with a JSON copy
  // ---------------------------------------------------------------------

  /** Comparing a value's JSON copy with it (shallow arrays) never throws,
      and shows no difference exactly when no date is reached through
      object fields: such a date's copy is a string, which differs in
      `typeof`. */
  lemma {:induction false} KeyChangeCopy(v: Value)
    requires WellFormed(v) && !Omitted(v)
    ensures KeyChange(JsonCopy(v), v, false).Ok?
    ensures KeyChange(JsonCopy(v), v, false) == Ok(Unchanged) <==> NoFieldDates(v)
    decreases v, 1
  {
    CopyNotOmitted(v);
    match v
    case Arr(a) => CopyNormal(v);
    case Obj(fs) =>
      assert OwnProps(v) == fs;
      ObjectWalkCopy(fs);
    case _ =>
  }

  /** `diff(JSON.parse(JSON.stringify(data)), data)` walks without
      throwing; it records nothing when no date is reached through object
      fields, and some change otherwise. */
  lemma {:induction false} ObjectWalkCopy(fs: seq<Field>)
    requires DistinctKeys(fs) && FieldsWellFormed(fs)
    ensures ObjectWalk(CopyFields(fs), fs, false).Ok?
    ensures FieldsNoDates(fs) ==> ObjectWalk(CopyFields(fs), fs, false) == Ok(ObjectDelta([], []))
    ensures !FieldsNoDates(fs) ==> |ObjectWalk(CopyFields(fs), fs, false).value.changes| > 0
    decreases fs, 3
  {
    CopyWalkKeys(fs);
    if FieldsNoDates(fs) {
      CopyWalkClean(fs);
    } else {
      CopyWalkDirty(fs);
    }
  }

  /** Every key of the copy walk compares without throwing, and finds no
      change exactly when no date is reached below it. */
  lemma {:induction false} CopyWalkKeys(fs: seq<Field>)
    requires DistinctKeys(fs) && FieldsWellFormed(fs)
    ensures ObjectWalk(CopyFields(fs), fs, false).Ok?
    ensures forall j :: 0 <= j < |CopyFields(fs)| ==>
              (KeyChange(CopyFields(fs)[j].val, Get(fs, CopyFields(fs)[j].key), false) == Ok(Unchanged) <==>
               NoFieldDates(Get(fs, CopyFields(fs)[j].key)))
    decreases fs, 2
  {
    var c := CopyFields(fs);
    CopyFieldsKeys(fs);
    forall j | 0 <= j < |c|
      ensures KeyChange(c[j].val, Get(fs, c[j].key), false).Ok?
      ensures KeyChange(c[j].val, Get(fs, c[j].key), false) == Ok(Unchanged) <==> NoFieldDates(Get(fs, c[j].key))
    {
      CopyKeyChangeAt(fs, j);
    }
    ObjectWalkOk(c, fs, false);
  }

  /** Without dates below the fields, the copy walk records nothing. */
  lemma {:induction false} CopyWalkClean(fs: seq<Field>)
    requires DistinctKeys(fs) && FieldsWellFormed(fs) && FieldsNoDates(fs)
    requires forall j :: 0 <= j < |CopyFields(fs)| ==>
               (KeyChange(CopyFields(fs)[j].val, Get(fs, CopyFields(fs)[j].key), false) == Ok(Unchanged) <==>
                NoFieldDates(Get(fs, CopyFields(fs)[j].key)))
    ensures ObjectWalk(CopyFields(fs), fs, false) == Ok(ObjectDelta([], []))
  {
    var c := CopyFields(fs);
    forall j | 0 <= j < |c| ensures KeyChange(c[j].val, Get(fs, c[j].key), false) == Ok(Unchanged) {
      FieldsNoDatesGet(fs, c[j].key);
    }
    ObjectWalkAllUnchanged(c, fs, false);
  }

  /** With a date below some field, the copy walk records a change. */
  lemma {:induction false} CopyWalkDirty(fs: seq<Field>)
    requires DistinctKeys(fs) && FieldsWellFormed(fs) && !FieldsNoDates(fs)
    requires ObjectWalk(CopyFields(fs), fs, false).Ok?
    requires forall j :: 0 <= j < |CopyFields(fs)| ==>
               (KeyChange(CopyFields(fs)[j].val, Get(fs, CopyFields(fs)[j].key), false) == Ok(Unchanged) <==>
                NoFieldDates(Get(fs, CopyFields(fs)[j].key)))
    ensures |ObjectWalk(CopyFields(fs), fs, false).value.changes| > 0
  {
    var c := CopyFields(fs);
    CopyFieldsKeys(fs);
    FieldsNoDatesAll(fs);
    var i :| 0 <= i < |fs| && !NoFieldDates(fs[i].val);
    var k := fs[i].key;
    GetAt(fs, i);
    CopyFieldsGet(fs, k);
    assert k in KeysOf(fs);
    var j :| 0 <= j < |c| && KeysOf(c)[j] == k;
    assert c[j].key == k && !NoFieldDates(Get(fs, k));
    assert KeyChange(c[j].val, Get(fs, c[j].key), false) != Ok(Unchanged);
    ObjectWalkSomeChange(c, fs, false, j);
  }

  /** One key of the copy walk. */
  lemma {:induction false} CopyKeyChangeAt(fs: seq<Field>, j: nat)
    requires DistinctKeys(fs) && FieldsWellFormed(fs) && j < |CopyFields(fs)|
    ensures KeyChange(CopyFields(fs)[j].val, Get(fs, CopyFields(fs)[j].key), false).Ok?
    ensures KeyChange(CopyFields(fs)[j].val, Get(fs, CopyFields(fs)[j].key), false) == Ok(Unchanged) <==>
              NoFieldDates(Get(fs, CopyFields(fs)[j].key))
    decreases fs, 1
  {
    var c := CopyFields(fs);
    var k := c[j].key;
    CopyFieldsKeys(fs);
    GetAt(c, j);
    CopyFieldsGet(fs, k);
    assert k in KeysOf(c);
    var i :| 0 <= i < |fs| && KeysOf(fs)[i] == k;
    GetAt(fs, i);
    FieldsWellFormedAt(fs, i);
    KeyChangeCopy(fs[i].val);
  }

  /** A key whose step reports a change leaves the walk's `changes`
      non-empty. */
  lemma ObjectWalkSomeChange(t: seq<Field>, s: seq<Field>, deep: bool, j: nat)
    requires DistinctKeys(t) && ObjectWalk(t, s, deep).Ok? && j < |t|
    requires KeyChange(t[j].val, Get(s, t[j].key), deep) != Ok(Unchanged)
    ensures |ObjectWalk(t, s, deep).value.changes| > 0
  {
    ObjectWalkRecords(t, s, deep);
    assert t[j].key in KeysOf(ObjectWalk(t, s, deep).value.changes);
  }

  /** `diff(JSON.parse(JSON.stringify(a)), b)`, for an object `b` that
      agrees with `a` at every key of `a`, does not throw, and is empty
      exactly when no date is reached from `a` through object fields. */
  lemma DiffFromCopy(fs: seq<Field>, s: seq<Field>)
    requires DistinctKeys(fs) && FieldsWellFormed(fs)
    requires forall k :: k in KeysOf(fs) ==> Get(s, k) == Get(fs, k)
    ensures Diff(Obj(CopyFields(fs)), Obj(s), false).Ok?
    ensures Diff(Obj(CopyFields(fs)), Obj(s), false) == Ok(Obj([])) <==> FieldsNoDates(fs)
  {
    var c := CopyFields(fs);
    CopyFieldsKeys(fs);
    forall i | 0 <= i < |c| ensures Get(s, c[i].key) == Get(fs, c[i].key) {
      assert KeysOf(c)[i] == c[i].key;
    }
    ObjectWalkReadsTargetKeys(c, s, fs, false);
    ObjectWalkCopy(fs);
  }

  /** The first check of the simple-object example of diff.test.js. */
  lemma DiffSimpleObject()
    ensures Diff(Obj([Field("a", Num(1)), Field("b", Num(2))]),
                 Obj([Field("a", Num(1)), Field("b", Num(3))]), false)
         == Ok(Obj([Field("b", Num(3))]))
  {
    var t := [Field("a", Num(1)), Field("b", Num(2))];
    var s := [Field("a", Num(1)), Field("b", Num(3))];
    assert t[..1] == [Field("a", Num(1))];
    assert ObjectWalk(t[..1], s, false) == Ok(ObjectDelta([], []));
  }

  /** `diff({k: {a: 1}}, {k: []})`: the nested walk reads `[]["a"]`,
      which is undefined. */
  lemma ObjectAgainstArrayExample()
    ensures Diff(Obj([Field("k", Obj([Field("a", Num(1))]))]), Obj([Field("k", Arr([]))]), false)
         == Ok(Obj([Field("k", Obj([Field("a", Undefined)]))]))
  {
    var t := [Field("a", Num(1))];
    var u := [Field("a", Undefined)];
    assert t[..0] == [];
    assert Get(OwnProps(Arr([])), "a") == Undefined;
    assert ObjectWalk(t, OwnProps(Arr([])), false) == Ok(ObjectDelta(t, u));
    assert KeyChange(Obj(t), Arr([]), false) == Ok(Changed(Obj(t), Obj(u)));
    var ft := [Field("k", Obj(t))];
    assert ft[..0] == [];
    var fs := [Field("k", Arr([]))];
    assert Get(fs, "k") == Arr([]);
    assert ObjectWalk(ft, fs, false) == Ok(ObjectDelta(ft, [Field("k", Obj(u))]));
  }

  /** `diff({k: [1]}, {k: {}}, true)`: the element walk reads `{}[0]`, which
      is undefined, the filter drops that change, and `1 < {}.length` is
      false, so nothing is reported. */
  lemma DeepArrayAgainstObjectExample()
    ensures Diff(Obj([Field("k", Arr([Item(Num(1))]))]), Obj([Field("k", Obj([]))]), true)
         == Ok(Obj([]))
  {
    var t: seq<Slot> := [Item(Num(1))];
    assert t[..0] == [];
    var d := ArrayPrefix(t, SourceSlots(Obj([]), 1)).value;
    assert d.changes == [Item(Undefined)];
    assert !AnyTruthy(d.changes);
    assert ReadLength(Obj([])) == Undefined;
    assert ArrayWalkOn(t, Obj([])) == Ok(d);
    assert KeyChange(Arr(t), Obj([]), true) == Ok(Unchanged);
    var ft := [Field("k", Arr(t))];
    assert ft[..0] == [];
  }

  /** `diff({d: date}, {d: null})`: `new Date(null)` is the epoch, so a date
      other than the epoch is reported with null as its change. */
  lemma DateAgainstNullExample()
    ensures Diff(Obj([Field("d", DateVal(Date(2020, 0, 1, 0, 0, 0, 0)))]), Obj([Field("d", Null)]), false)
         == Ok(Obj([Field("d", Null)]))
  {
    var ft := [Field("d", DateVal(Date(2020, 0, 1, 0, 0, 0, 0)))];
    assert ft[..0] == [];
  }

  /** The two nested cases that throw: a filled object against null reads
      a property of null, and a date against an object takes the ISO text
      of an invalid date. */
  lemma NestedFaultExamples()
    ensures Diff(Obj([Field("k", Obj([Field("a", Num(1))]))]), Obj([Field("k", Null)]), false) == Err(Fault)
    ensures Diff(Obj([Field("d", DateVal(EPOCH))]), Obj([Field("d", Obj([]))]), false) == Err(Fault)
  {
    var ft := [Field("k", Obj([Field("a", Num(1))]))];
    assert ft[..0] == [];
    var fd := [Field("d", DateVal(EPOCH))];
    assert fd[..0] == [];
    assert KeyChange(DateVal(EPOCH), Obj([]), false) == Err(Fault);
    assert ObjectWalk(fd, [Field("d", Obj([]))], false) == Err(Fault);
  }

  // ---------------------------------------------------------------------
  // What a walk records is made of well-formed values
  // ---------------------------------------------------------------------

  lemma {:induction false} KeyChangeWellFormed(v: Value, sv: Value, deep: bool)
    requires WellFormed(v) && WellFormed(sv) && KeyChange(v, sv, deep).Ok?
    ensures KeyChange(v, sv, deep).value.Changed? ==>
              WellFormed(KeyChange(v, sv, deep).value.origin) &&
              WellFormed(KeyChange(v, sv, deep).value.change)
    decreases v
  {
    if TypeofTag(v) == TypeofTag(sv) {
      match v
      case Arr(a) =>
        if deep {
          if sv.Arr? {
            ArrayWalkWellFormed(a, sv.items);
          } else if !sv.Null? {
            SourceSlotsWellFormed(sv, |a|);
            ArrayPrefixWellFormed(a, SourceSlots(sv, |a|));
          }
        }
      case Obj(fs) =>
        if !sv.Null? {
          OwnPropsWellFormed(sv);
          ObjectWalkWellFormed(fs, OwnProps(sv), deep);
        }
      case _ =>
    }
  }

  /** What an element walk reads from a source that is not an array is
      well-formed. */
  lemma SourceSlotsWellFormed(sv: Value, n: nat)
    requires WellFormed(sv) && !sv.Arr? && TypeofTag(sv) == "object"
    ensures SlotsWellFormed(SourceSlots(sv, n))
  {
    var r := SourceSlots(sv, n);
    OwnPropsWellFormed(sv);
    forall i | 0 <= i < n ensures WellFormed(r[i].value) {
      GetWellFormed(OwnProps(sv), IntToString(i));
    }
    SlotsWellFormedAll(r);
  }

  /** The `origins` and `changes` of an object walk are JavaScript objects
      of well-formed values. */
  lemma {:induction false} ObjectWalkWellFormed(t: seq<Field>, s: seq<Field>, deep: bool)
    requires FieldsWellFormed(t) && FieldsWellFormed(s) && ObjectWalk(t, s, deep).Ok?
    ensures WellFormed(Obj(ObjectWalk(t, s, deep).value.origins))
    ensures WellFormed(Obj(ObjectWalk(t, s, deep).value.changes))
    decreases t
  {
    if |t| > 0 {
      var n := |t| - 1;
      FieldsWellFormedAll(t);
      FieldsWellFormedAll(t[..n]);
      ObjectWalkWellFormed(t[..n], s, deep);
      var d := ObjectWalk(t[..n], s, deep).value;
      FieldsWellFormedAt(t, n);
      GetWellFormed(s, t[n].key);
      KeyChangeWellFormed(t[n].val, Get(s, t[n].key), deep);
      var c := KeyChange(t[n].val, Get(s, t[n].key), deep).value;
      if c.Changed? {
        PutWellFormed(d.origins, t[n].key, c.origin);
        PutWellFormed(d.changes, t[n].key, c.change);
      }
    }
  }

  lemma {:induction false} ElemChangeWellFormed(x: Value, sv: Value)
    requires WellFormed(x) && WellFormed(sv) && ElemChange(x, sv).Ok?
    ensures ElemChange(x, sv).value.Changed? ==>
              WellFormed(ElemChange(x, sv).value.origin) &&
              WellFormed(ElemChange(x, sv).value.change)
    decreases x
  {
    if TypeOf(x) == TypeOf(sv) {
      match x
      case Obj(fs) => ObjectWalkWellFormed(fs, sv.fields, true);
      case Arr(a) => ArrayWalkWellFormed(a, sv.items);
      case _ =>
    }
  }

  lemma {:induction false} SlotChangeWellFormed(ts: Slot, sv: Value)
    requires SlotWellFormed(ts) && WellFormed(sv) && SlotChange(ts, sv).Ok?
    ensures SlotChange(ts, sv).value.Changed? ==>
              WellFormed(SlotChange(ts, sv).value.origin) &&
              WellFormed(SlotChange(ts, sv).value.change)
    decreases ts
  {
    if ts.Item? { ElemChangeWellFormed(ts.value, sv); }
  }

  lemma {:induction false} ArrayPrefixWellFormed(t: seq<Slot>, s: seq<Slot>)
    requires SlotsWellFormed(t) && SlotsWellFormed(s) && ArrayPrefix(t, s).Ok?
    ensures SlotsWellFormed(ArrayPrefix(t, s).value.origins)
    ensures SlotsWellFormed(ArrayPrefix(t, s).value.changes)
    decreases t, 0
  {
    if |t| > 0 {
      var n := |t| - 1;
      SlotsWellFormedAll(t);
      SlotsWellFormedAll(t[..n]);
      ArrayPrefixWellFormed(t[..n], s);
      var d := ArrayPrefix(t[..n], s).value;
      if n < |s| && s[n].Item? { SlotsWellFormedAt(s, n); }
      SlotChangeWellFormed(t[n], SlotValue(s, n));
      var c := SlotChange(t[n], SlotValue(s, n)).value;
      if c.Changed? {
        AssignWellFormed(d.origins, n, c.origin);
        AssignWellFormed(d.changes, n, c.change);
      }
    }
  }

  lemma {:induction false} ArrayWalkWellFormed(t: seq<Slot>, s: seq<Slot>)
    requires SlotsWellFormed(t) && SlotsWellFormed(s) && ArrayWalk(t, s).Ok?
    ensures SlotsWellFormed(ArrayWalk(t, s).value.origins)
    ensures SlotsWellFormed(ArrayWalk(t, s).value.changes)
    decreases t, 1
  {
    ArrayPrefixWellFormed(t, s);
    var d := ArrayPrefix(t, s).value;
    if |t| < |s| {
      var h := SpreadHead(s, |t|);
      SlotsWellFormedAll(s);
      SlotsWellFormedAll(d.changes);
      SlotsWellFormedAll(h);
      SlotsWellFormedAll(d.changes + h);
    }
  }

  // ---------------------------------------------------------------------
  // dateDiff
  // ---------------------------------------------------------------------

  lemma DateKeysDistinct()
    ensures forall i, j :: 0 <= i < j < 7 ==> DATE_KEYS[i] != DATE_KEYS[j]
  {
    assert DATE_KEYS[0][0] == 'y' && DATE_KEYS[1][0] == 'm' && DATE_KEYS[2][0] == 'd';
    assert DATE_KEYS[3][0] == 'h' && DATE_KEYS[5][0] == 's';
    assert DATE_KEYS[1][1] == 'o' && DATE_KEYS[4][1] == 'i' && DATE_KEYS[6][1] == 'i';
    assert |DATE_KEYS[4]| == 7 && |DATE_KEYS[6]| == 12;
  }

  /** Each of the seven keys is in the `changes` of the first `n` fields
      exactly when its field is among them and differs, and then holds the
      source's field. */
  ghost predicate DateChangesHold(t: Date, s: Date, n: nat)
    requires n <= 7
  {
    forall i :: 0 <= i < 7 ==>
      (DATE_KEYS[i] in KeysOf(DateChangesUpTo(t, s, n)) <==> i < n && DateParts(t)[i] != DateParts(s)[i]) &&
      Get(DateChangesUpTo(t, s, n), DATE_KEYS[i]) ==
        (if i < n && DateParts(t)[i] != DateParts(s)[i] then Num(DateParts(s)[i]) else Undefined)
  }

  lemma {:induction false} DateChangesAt(t: Date, s: Date, n: nat)
    requires n <= 7
    ensures DateChangesHold(t, s, n)
  {
    if n > 0 {
      DateChangesAt(t, s, n - 1);
      DateChangesStep(t, s, n);
    }
  }

  /** The step of `DateChangesAt`: the `n`-th check adds its key, which none
      of the earlier ones wrote. */
  lemma DateChangesStep(t: Date, s: Date, n: nat)
    requires 1 <= n <= 7 && DateChangesHold(t, s, n - 1)
    ensures DateChangesHold(t, s, n)
  {
    DateKeysDistinct();
    var rest := DateChangesUpTo(t, s, n - 1);
    if DateParts(t)[n - 1] != DateParts(s)[n - 1] {
      var f := Field(DATE_KEYS[n - 1], Num(DateParts(s)[n - 1]));
      forall i | 0 <= i < 7
        ensures Get(rest + [f], DATE_KEYS[i]) ==
                  (if i < n && DateParts(t)[i] != DateParts(s)[i] then Num(DateParts(s)[i]) else Undefined)
      {
        GetAppend(rest, f, DATE_KEYS[i]);
      }
      GetAppend(rest, f, f.key);
    }
  }

  lemma DateOriginAt(t: Date, i: nat)
    requires i < 7
    ensures |DateOrigins(t)| == 7
    ensures DateOrigins(t)[i] == Field(DATE_KEYS[i], Num(DateParts(t)[i]))
  {
    var o := DateOrigins(t);
    if i == 0 { assert o[0] == Field("year", Num(t.year)); }
    else if i == 1 { assert o[1] == Field("month", Num(t.month)); }
    else if i == 2 { assert o[2] == Field("date", Num(t.day)); }
    else if i == 3 { assert o[3] == Field("hours", Num(t.hours)); }
    else if i == 4 { assert o[4] == Field("minutes", Num(t.minutes)); }
    else if i == 5 { assert o[5] == Field("seconds", Num(t.seconds)); }
    else { assert o[6] == Field("milliseconds", Num(t.milliseconds)); }
  }

  /** The `origins` of dateDiff hold the seven fields of the target under
      their keys. */
  lemma DateOriginsRecords(t: Date)
    ensures KeysOf(DateOrigins(t)) == DATE_KEYS
    ensures forall i :: 0 <= i < 7 ==> Get(DateOrigins(t), DATE_KEYS[i]) == Num(DateParts(t)[i])
  {
    var o := DateOrigins(t);
    var ks := KeysOf(o);
    DateKeysDistinct();
    forall i | 0 <= i < 7 ensures ks[i] == DATE_KEYS[i] {
      DateOriginAt(t, i);
    }
    forall i, j | 0 <= i < j < 7 ensures o[i].key != o[j].key {
      DateOriginAt(t, i);
      DateOriginAt(t, j);
    }
    forall i | 0 <= i < 7 ensures Get(o, DATE_KEYS[i]) == Num(DateParts(t)[i]) {
      DateOriginAt(t, i);
      GetAt(o, i);
    }
  }

  /** dateDiff: `origins` holds all seven fields of the target under their
      keys; a key is in `changes` exactly when that field differs, and then
      holds the source's field. */
  lemma DateDeltaRecords(t: Date, s: Date)
    ensures KeysOf(DateDelta(t, s).origins) == DATE_KEYS
    ensures forall i :: 0 <= i < 7 ==> Get(DateDelta(t, s).origins, DATE_KEYS[i]) == Num(DateParts(t)[i])
    ensures forall i :: 0 <= i < 7 ==>
              (DATE_KEYS[i] in KeysOf(DateDelta(t, s).changes) <==> DateParts(t)[i] != DateParts(s)[i]) &&
              Get(DateDelta(t, s).changes, DATE_KEYS[i]) ==
                (if DateParts(t)[i] != DateParts(s)[i] then Num(DateParts(s)[i]) else Undefined)
  {
    DateOriginsRecords(t);
    DateChangesAt(t, s, 7);
  }

  // ---------------------------------------------------------------------
  // arrayDiff and stringDiff, index by index
  // ---------------------------------------------------------------------

  /** Index `i` of delta `d` holds what `c` says: assigned in both arrays
      exactly when `c` is a change, and then with both of its sides. */
  predicate SlotHolds(d: ArrayDelta, i: nat, c: Change) {
    (i < |d.changes| && d.changes[i].Item? <==> c.Changed?) &&
    (i < |d.origins| && d.origins[i].Item? <==> c.Changed?) &&
    (c.Changed? ==> d.changes[i] == Item(c.change) && d.origins[i] == Item(c.origin))
  }

  /** The last slot of a non-empty array is assigned: `changes.length` is one
      past the highest index written. */
  predicate EndsAssigned(a: seq<Slot>) {
    |a| > 0 ==> a[|a| - 1].Item?
  }

  lemma PlaceKeeps(d: ArrayDelta, i: nat, c: Change, j: nat, cj: Change)
    requires |d.origins| == |d.changes| <= i && j < i && SlotHolds(d, j, cj)
    ensures SlotHolds(Place(d, i, c), j, cj)
  {
  }

  lemma PlaceHolds(d: ArrayDelta, i: nat, c: Change)
    requires |d.origins| == |d.changes| <= i
    ensures SlotHolds(Place(d, i, c), i, c)
    ensures EndsAssigned(d.changes) && EndsAssigned(d.origins) ==>
              EndsAssigned(Place(d, i, c).changes) && EndsAssigned(Place(d, i, c).origins)
    ensures |Place(d, i, c).changes| == |Place(d, i, c).origins| <= i + 1
  {
  }

  lemma ArrayPrefixOkAt(t: seq<Slot>, s: seq<Slot>, i: nat)
    requires i < |t| && ArrayPrefix(t, s).Ok?
    ensures ArrayPrefix(t[..i], s).Ok?
    ensures SlotChange(t[i], SlotValue(s, i)).Ok?
  {
    if ArrayPrefix(t[..i], s).Err? {
      ArrayPrefixErrExtends(t, s, i);
    } else {
      ArrayPrefixStep(t, s, i, ArrayPrefix(t[..i], s).value);
      if SlotChange(t[i], SlotValue(s, i)).Err? {
        ArrayPrefixErrExtends(t, s, i + 1);
      }
    }
  }

  /** What the element walk of arrayDiff records: an index of the target is
      assigned in `origins` and `changes` exactly when its element differs
      from the source's (holes of the target never are), and nothing is
      assigned past the target's end. */
  lemma {:induction false} ArrayPrefixRecords(t: seq<Slot>, s: seq<Slot>)
    requires ArrayPrefix(t, s).Ok?
    ensures forall i :: 0 <= i < |t| ==>
              SlotChange(t[i], SlotValue(s, i)).Ok? &&
              SlotHolds(ArrayPrefix(t, s).value, i, SlotChange(t[i], SlotValue(s, i)).value)
    ensures EndsAssigned(ArrayPrefix(t, s).value.changes) && EndsAssigned(ArrayPrefix(t, s).value.origins)
    decreases |t|
  {
    if |t| > 0 {
      var n := |t| - 1;
      var u := t[..n];
      ArrayPrefixOkAt(t, s, n);
      ArrayPrefixRecords(u, s);
      var d0 := ArrayPrefix(u, s).value;
      var c := SlotChange(t[n], SlotValue(s, n)).value;
      assert t[..n + 1] == t;
      ArrayPrefixStep(t, s, n, d0);
      var d := ArrayPrefix(t, s).value;
      assert d == Place(d0, n, c);
      PlaceHolds(d0, n, c);
      forall i | 0 <= i < n
        ensures SlotChange(t[i], SlotValue(s, i)).Ok?
        ensures SlotHolds(d, i, SlotChange(t[i], SlotValue(s, i)).value)
      {
        assert u[i] == t[i];
        PlaceKeeps(d0, n, c, i, SlotChange(t[i], SlotValue(s, i)).value);
      }
    }
  }

  /** When the source is longer, arrayDiff appends the source's FIRST
      `target.length` elements after the element walk's changes, not the
      elements past the target's end: a target that is a prefix of the source
      yields exactly the source's head. */
  lemma {:induction false} ArrayPrefixOfSource(t: seq<Slot>, s: seq<Slot>)
    requires SlotsWellFormed(t) && |t| <= |s| && t == s[..|t|]
    ensures ArrayPrefix(t, s) == Ok(ArrayDelta([], []))
  {
    forall i | 0 <= i < |t|
      ensures SlotChange(t[i], SlotValue(s, i)) == Ok(Unchanged)
    {
      if t[i].Item? {
        SlotsWellFormedAt(t, i);
      }
      assert s[i] == t[i];
      SlotChangeSelf(t[i]);
    }
    ArrayPrefixAllUnchanged(t, s);
  }

  lemma ArrayWalkHeadAppended(t: seq<Slot>, s: seq<Slot>)
    requires SlotsWellFormed(t) && |t| < |s| && t == s[..|t|]
    ensures ArrayWalk(t, s) == Ok(ArrayDelta([], SpreadHead(s, |t|)))
    ensures forall i :: 0 <= i < |t| ==> ArrayWalk(t, s).value.changes[i] == Item(SlotValue(s, i))
  {
    ArrayPrefixOfSource(t, s);
    var h := SpreadHead(s, |t|);
    assert [] + h == h;
  }

  /** diff of a hole-free array against a longer source that starts with
      it returns the target itself: the walked prefix has no changes and the
      pushed head is the target again. */
  lemma ArrayDiffOfPrefix(t: seq<Slot>, s: seq<Slot>)
    requires SlotsWellFormed(t) && |t| < |s| && t == s[..|t|]
    requires forall i :: 0 <= i < |t| ==> t[i].Item?
    ensures Diff(Arr(t), Arr(s), false) == Ok(Arr(t))
  {
    ArrayWalkHeadAppended(t, s);
    var h := SpreadHead(s, |t|);
    forall i | 0 <= i < |t| ensures h[i] == t[i] {
      assert s[i] == t[i];
    }
    assert h == t;
    DiffOfArrays(t, s, false);
  }

  /** diff on two arrays is the `changes` of their walk. */
  lemma DiffOfArrays(t: seq<Slot>, s: seq<Slot>, deep: bool)
    requires ArrayWalk(t, s).Ok?
    ensures Diff(Arr(t), Arr(s), deep) == Ok(Arr(ArrayWalk(t, s).value.changes))
  {
  }

  /** diff([1, 2], [1, 2, 3]) is [1, 2]: the extra element 3 is not
      reported. */
  lemma ArrayDiffHeadExample(t: seq<Slot>, s: seq<Slot>)
    requires t == [Item(Num(1)), Item(Num(2))]
    requires s == [Item(Num(1)), Item(Num(2)), Item(Num(3))]
    ensures Diff(Arr(t), Arr(s), false) == Ok(Arr(t))
  {
    assert t == s[..2];
    ArrayDiffOfPrefix(t, s);
  }

  /** With deep array diffing, an array key is recorded only when some
      assigned element of the nested `changes` is truthy: a change to 0,
      "", false, null or undefined is not reported. */
  lemma DeepArrayFalsyChangeIgnored()
    ensures Diff(Obj([Field("a", Arr([Item(Num(1))]))]), Obj([Field("a", Arr([Item(Num(0))]))]), true)
         == Ok(Obj([]))
  {
    var t: seq<Slot> := [Item(Num(1))];
    assert t[..0] == [];
    var sv := Arr([Item(Num(0))]);
    var d := ArrayWalk(t, sv.items).value;
    assert d.changes == [Item(Num(0))];
    assert !AnyTruthy(d.changes);
    assert ArrayWalkOn(t, sv) == Ok(d);
    assert KeyChange(Arr(t), sv, true) == Ok(Unchanged);
    var ft := [Field("a", Arr(t))];
    assert ft[..0] == [];
  }

  /** With deep array diffing, a truthy element change keeps the array key
      and records the source's array. */
  lemma DeepArrayTruthyChangeKept()
    ensures Diff(Obj([Field("a", Arr([Item(Num(1))]))]), Obj([Field("a", Arr([Item(Num(2))]))]), true)
         == Ok(Obj([Field("a", Arr([Item(Num(2))]))]))
  {
    var t: seq<Slot> := [Item(Num(1))];
    assert t[..0] == [];
    var sv := Arr([Item(Num(2))]);
    var d2 := ArrayWalk(t, sv.items).value;
    assert d2.changes == [Item(Num(2))];
    assert Truthy(d2.changes[0].value);
    assert ArrayWalkOn(t, sv) == Ok(d2);
    var ft := [Field("a", Arr(t))];
    assert ft[..0] == [];
  }

  lemma CharChangeExtend(t: string, s: string, n: nat)
    requires n < |t|
    ensures CharChange(t[..n + 1], s, n) == CharChange(t, s, n)
  {
  }

  /** stringDiff: an index of the target is assigned exactly when the
      source's character there differs or is missing; `origins` then holds
      the target's character and `changes` the source's one, or undefined.
      Nothing is assigned past the target's end. */
  lemma {:induction false} StringWalkRecords(t: string, s: string)
    ensures forall i :: 0 <= i < |t| ==> SlotHolds(StringWalk(t, s), i, CharChange(t, s, i))
    ensures EndsAssigned(StringWalk(t, s).changes) && EndsAssigned(StringWalk(t, s).origins)
    decreases |t|
  {
    if |t| > 0 {
      var n := |t| - 1;
      var u := t[..n];
      StringWalkRecords(u, s);
      var d0 := StringWalk(u, s);
      var c := CharChange(t, s, n);
      PlaceHolds(d0, n, c);
      forall i | 0 <= i < n
        ensures SlotHolds(StringWalk(t, s), i, CharChange(t, s, i))
      {
        assert u[i] == t[i];
        assert CharChange(u, s, i) == CharChange(t, s, i);
        PlaceKeeps(d0, n, c, i, CharChange(t, s, i));
      }
    }
  }

  /** A replaced character is recorded at its index; the unchanged ones
      before it are holes. */
  lemma StringDiffReplaced()
    ensures Diff(Str("ABC"), Str("ACC"), false) == Ok(Arr([Hole, Item(Str("C"))]))
  {
    assert "ABC"[..2] == "AB" && "AB"[..1] == "A" && "A"[..0] == "";
    assert StringWalk("A", "ACC") == ArrayDelta([], []);
    var b1 := StringWalk("AB", "ACC");
    assert b1.changes == Assign([], 1, Str("C"));
    assert b1.changes == [Hole, Item(Str("C"))];
    assert StringWalk("ABC", "ACC") == b1;
  }

  /** A character the source lacks is recorded as undefined. */
  lemma StringDiffShorterSource(t: string, s: string)
    requires t == "ABCD" && s == "ABD"
    ensures Diff(Str(t), Str(s), false) == Ok(Arr([Hole, Hole, Item(Str("D")), Item(Undefined)]))
  {
    assert "ABCD"[..3] == "ABC" && "ABC"[..2] == "AB" && "AB"[..1] == "A" && "A"[..0] == "";
    assert StringWalk("A", "ABD") == ArrayDelta([], []);
    assert StringWalk("AB", "ABD") == ArrayDelta([], []);
    var b2 := StringWalk("ABC", "ABD").changes;
    assert b2 == Assign([], 2, Str("D"));
    assert b2 == [Hole, Hole, Item(Str("D"))];
    var b3 := StringWalk("ABCD", "ABD").changes;
    assert b3 == Assign(b2, 3, Undefined);
    assert b3 == [Hole, Hole, Item(Str("D")), Item(Undefined)];
  }

  /** Characters past the end of the target are not reported. */
  lemma StringDiffLongerSource()
    ensures Diff(Str("ABC"), Str("ABCD"), false) == Ok(Arr([]))
  {
    assert "ABC" == "ABCD"[..3];
    StringWalkSelf("ABC", "ABCD");
  }
}
