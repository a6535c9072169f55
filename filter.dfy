/**
 * The filter helpers of src/utils/filter.ts: flattening nested filter and
 * data references into dotted paths, the `key=value&...` codec that puts a
 * query in a URL, and the decoder that turns such a string back into a
 * filter object.
 */
module Filter {
  import opened Text
  import opened JsValues
  import opened Converter

  /** One entry of `filterRefMap`'s result: the four descriptor properties of
      a filter object that carries `_type`, and the dotted path to it. */
  datatype FilterRef = FilterRef(typ: Value, caption: Value, required: Value, exclude: Value, path: string)

  /** The optional `type` of a mapped data reference. */
  datatype RefType = Untyped | Single | Multiple | Range

  /** A mapped data reference `{ key, type?, value }`. */
  datatype DataRef = DataRef(key: string, typ: RefType, value: Value)

  /** Following a path of keys from a value, as `_.get` does. */
  function At(v: Value, path: seq<string>): Value
    decreases |path|
  {
    if |path| == 0 then v
    else if v.Obj? then At(Get(v.fields, path[0]), path[1..])
    else Undefined
  }

  /** Every object reached through objects has distinct keys, none of
      which contains a dot, so that a dotted path names one place. */
  predicate PlainKeys(v: Value)
    decreases v
  {
    v.Obj? ==>
      DistinctKeys(v.fields) &&
      forall i :: 0 <= i < |v.fields| ==> Avoids(v.fields[i].key, ".") && PlainKeys(v.fields[i].val)
  }

  // ---------------------------------------------------------------------
  // filterRefMap
  // ---------------------------------------------------------------------

  /** The entries `filterRefMap` produces for the first `|fs|` entries of
      an object. */
  function FilterRefsOf(fs: seq<Field>): seq<FilterRef>
    decreases fs
  {
    if |fs| == 0 then []
    else FilterRefsOf(fs[..|fs| - 1]) + EntryFilterRefs(fs[|fs| - 1].key, fs[|fs| - 1].val)
  }

  /** What one entry `key: v` contributes: its own descriptor if `v` is an
      object with a truthy `_type`, then the entries below it. */
  function EntryFilterRefs(key: string, v: Value): seq<FilterRef>
    decreases v
  {
    if !v.Obj? then []
    else
      (if Truthy(Get(v.fields, "_type")) then [Descriptor(v.fields, key)] else [])
      + FilterRefsUnder(key, FilterRefsOf(v.fields))
  }

  function Descriptor(fs: seq<Field>, path: string): FilterRef {
    FilterRef(Get(fs, "_type"), Get(fs, "_label"), Get(fs, "_required"), Get(fs, "_exclude"), path)
  }

  /** The sub-entries of `key`, with their paths prefixed by `key.`. */
  function FilterRefsUnder(key: string, refs: seq<FilterRef>): (r: seq<FilterRef>)
    ensures |r| == |refs|
    ensures forall i :: 0 <= i < |refs| ==> r[i] == refs[i].(path := key + "." + refs[i].path)
  {
    seq(|refs|, i requires 0 <= i < |refs| => refs[i].(path := key + "." + refs[i].path))
  }

  /** `filterRefMap(refs)`. */
  method FilterRefMap(refs: Value) returns (mapped: seq<FilterRef>)
    requires refs.Obj?
    ensures mapped == FilterRefsOf(refs.fields)
    decreases refs
  {
    var fs := refs.fields;
    mapped := [];
    for i := 0 to |fs|
      invariant mapped == FilterRefsOf(fs[..i])
    {
      var key, value := fs[i].key, fs[i].val;
      assert fs[..i + 1][..i] == fs[..i];
      if value.Obj? {
        if Truthy(Get(value.fields, "_type")) {
          mapped := mapped + [Descriptor(value.fields, key)];
        }
        var subRefs := FilterRefMap(value);
        mapped := mapped + FilterRefsUnder(key, subRefs);
      }
    }
    assert fs[..|fs|] == fs;
  }

  /** `r` describes the object found at `path` below `v`: that object has a
      truthy `_type`, and `r` holds its four descriptor properties. */
  predicate Describes(v: Value, path: seq<string>, r: FilterRef) {
    var o := At(v, path);
    o.Obj? && Truthy(Get(o.fields, "_type")) && r == Descriptor(o.fields, r.path)
  }

  /** Every entry of `filterRefMap` describes the nested object its dotted
      `_path` leads to. */
  lemma {:induction false} FilterRefsSound(fs: seq<Field>)
    requires PlainKeys(Obj(fs))
    ensures forall r :: r in FilterRefsOf(fs) ==> Describes(Obj(fs), Split(r.path, "."), r)
    decreases fs
  {
    if |fs| > 0 {
      var n := |fs| - 1;
      var pre, f := fs[..n], fs[n];
      FilterRefsSound(pre);
      EntryFilterRefsSound(f.key, f.val);
      assert fs == pre + [f];
      forall r | r in FilterRefsOf(fs) ensures Describes(Obj(fs), Split(r.path, "."), r) {
        var p := Split(r.path, ".");
        GetAppend(pre, f, p[0]);
        if r in FilterRefsOf(pre) {
          assert Describes(Obj(pre), p, r);
          FilterRefFirstStep(pre, r);
          assert At(Obj(fs), p) == At(Obj(pre), p);
        } else {
          assert r in EntryFilterRefs(f.key, f.val);
          assert f.key !in KeysOf(pre) by {
            assert forall j :: 0 <= j < n ==> KeysOf(pre)[j] == fs[j].key;
          }
          assert At(Obj(fs), p) == At(f.val, p[1..]);
        }
      }
    }
  }

  /** The first step of an entry's path is a key of the object. */
  lemma FilterRefFirstStep(fs: seq<Field>, r: FilterRef)
    requires Describes(Obj(fs), Split(r.path, "."), r)
    ensures Split(r.path, ".")[0] in KeysOf(fs)
  {
    var p := Split(r.path, ".");
    if p[0] !in KeysOf(fs) {
      GetAbsent(fs, p[0]);
      UndefinedAt(p[1..]);
    }
  }

  lemma {:induction false} UndefinedAt(path: seq<string>)
    ensures !At(Undefined, path).Obj?
  {
  }

  lemma {:induction false} EntryFilterRefsSound(key: string, v: Value)
    requires Avoids(key, ".") && PlainKeys(v)
    ensures forall r :: r in EntryFilterRefs(key, v) ==>
      var p := Split(r.path, "."); p[0] == key && Describes(v, p[1..], r)
    decreases v
  {
    if v.Obj? {
      SplitNone(key, ".");
      FilterRefsSound(v.fields);
      var subs := FilterRefsOf(v.fields);
      forall r | r in EntryFilterRefs(key, v)
        ensures var p := Split(r.path, "."); p[0] == key && Describes(v, p[1..], r)
      {
        if r !in FilterRefsUnder(key, subs) {
          assert r == Descriptor(v.fields, key);
        } else {
          var i :| 0 <= i < |subs| && FilterRefsUnder(key, subs)[i] == r;
          SplitAvoiding(key, ".", subs[i].path);
          assert Describes(Obj(v.fields), Split(subs[i].path, "."), subs[i]);
        }
      }
    }
  }

  /** A nested object with a truthy `_type` at the top level gets an entry
      whose path is its key. */
  lemma {:induction false} FilterRefsTopLevel(fs: seq<Field>, i: nat)
    requires i < |fs| && fs[i].val.Obj? && Truthy(Get(fs[i].val.fields, "_type"))
    ensures Descriptor(fs[i].val.fields, fs[i].key) in FilterRefsOf(fs)
    decreases |fs|
  {
    if i < |fs| - 1 {
      FilterRefsTopLevel(fs[..|fs| - 1], i);
    }
  }

  /** Every entry one key contributes is an entry of the whole result. */
  lemma {:induction false} EntryInFilterRefs(fs: seq<Field>, i: nat, r: FilterRef)
    requires i < |fs| && r in EntryFilterRefs(fs[i].key, fs[i].val)
    ensures r in FilterRefsOf(fs)
    decreases |fs|
  {
    if i < |fs| - 1 {
      EntryInFilterRefs(fs[..|fs| - 1], i, r);
    }
  }

  /** A nested object with a truthy `_type`, at any depth, gets an entry
      whose path is the dot-joined key path that leads to it. With
      `FilterRefsSound` this makes the entries exactly those objects. */
  lemma {:induction false} FilterRefsComplete(fs: seq<Field>, p: seq<string>)
    requires PlainKeys(Obj(fs)) && |p| >= 1
    requires At(Obj(fs), p).Obj? && Truthy(Get(At(Obj(fs), p).fields, "_type"))
    ensures Descriptor(At(Obj(fs), p).fields, Join(p, ".")) in FilterRefsOf(fs)
    decreases |p|
  {
    var o := At(Obj(fs), p);
    if p[0] !in KeysOf(fs) {
      GetAbsent(fs, p[0]);
      UndefinedAt(p[1..]);
      assert false;
    }
    var i :| 0 <= i < |fs| && KeysOf(fs)[i] == p[0];
    GetAt(fs, i);
    var v := fs[i].val;
    assert At(Obj(fs), p) == At(v, p[1..]);
    if |p| == 1 {
      assert Descriptor(o.fields, Join(p, ".")) in EntryFilterRefs(fs[i].key, v);
    } else {
      if !v.Obj? {
        assert false;
      }
      assert PlainKeys(v);
      FilterRefsComplete(v.fields, p[1..]);
      var sub := Descriptor(o.fields, Join(p[1..], "."));
      var subs := FilterRefsOf(v.fields);
      var j :| 0 <= j < |subs| && subs[j] == sub;
      assert [p[0]] + p[1..] == p;
      JoinCons(p[0], p[1..], ".");
      assert FilterRefsUnder(p[0], subs)[j] == Descriptor(o.fields, Join(p, "."));
      assert Descriptor(o.fields, Join(p, ".")) in EntryFilterRefs(fs[i].key, v);
    }
    EntryInFilterRefs(fs, i, Descriptor(o.fields, Join(p, ".")));
  }

  // ---------------------------------------------------------------------
  // modelRefMap
  // ---------------------------------------------------------------------

  /** A scalar or array entry is kept without `falsy` when it is not null
      or undefined, and not an empty array. */
  predicate Present(v: Value) {
    if v.Arr? then |v.items| > 0 else !v.Undefined? && !v.Null?
  }

  /** The references `modelRefMap(refs, falsy)` produces for the first
      `|fs|` entries of `refs`; `conditionKeys` is the library's list of
      where-predicate operators (`WherePredicateConditionKeys`). */
  function ModelRefsOf(fs: seq<Field>, falsy: bool, conditionKeys: seq<string>): seq<DataRef>
    decreases fs
  {
    if |fs| == 0 then []
    else
      ModelRefsOf(fs[..|fs| - 1], falsy, conditionKeys)
      + EntryModelRefs(fs[|fs| - 1].key, fs[|fs| - 1].val, falsy, conditionKeys)
  }

  /** What one entry contributes. A nested object is flattened by a call
      that is not given `falsy`. */
  function EntryModelRefs(key: string, v: Value, falsy: bool, conditionKeys: seq<string>): seq<DataRef>
    decreases v
  {
    if v.Obj? then ModelRefsUnder(key, ModelRefsOf(v.fields, false, conditionKeys), conditionKeys)
    else if Present(v) || falsy then [DataRef(key, Untyped, v)]
    else []
  }

  /** The sub-references of `key`: an operator key collapses onto `key`,
      any other key is prefixed by `key.`. */
  function ModelRefsUnder(key: string, refs: seq<DataRef>, conditionKeys: seq<string>): (r: seq<DataRef>)
    ensures |r| == |refs|
    ensures forall i :: 0 <= i < |refs| ==>
      r[i] == DataRef(if refs[i].key in conditionKeys then key else key + "." + refs[i].key, Untyped, refs[i].value)
  {
    seq(|refs|, i requires 0 <= i < |refs| =>
      DataRef(if refs[i].key in conditionKeys then key else key + "." + refs[i].key, Untyped, refs[i].value))
  }

  /** `modelRefMap(refs, falsy)`. */
  method ModelRefMap(refs: Value, falsy: bool, conditionKeys: seq<string>) returns (mapped: seq<DataRef>)
    requires refs.Obj?
    ensures mapped == ModelRefsOf(refs.fields, falsy, conditionKeys)
    decreases refs
  {
    var fs := refs.fields;
    mapped := [];
    for i := 0 to |fs|
      invariant mapped == ModelRefsOf(fs[..i], falsy, conditionKeys)
    {
      var key, value := fs[i].key, fs[i].val;
      assert fs[..i + 1][..i] == fs[..i];
      if value.Obj? {
        var subRefs := ModelRefMap(value, false, conditionKeys);
        mapped := mapped + ModelRefsUnder(key, subRefs, conditionKeys);
      } else if value.Arr? {
        if |value.items| > 0 || falsy {
          mapped := mapped + [DataRef(key, Untyped, value)];
        }
      } else if (!value.Undefined? && !value.Null?) || falsy {
        mapped := mapped + [DataRef(key, Untyped, value)];
      }
    }
    assert fs[..|fs|] == fs;
  }

  /** Below the top level nothing absent survives: `falsy` is not passed
      on, so every reference a nested object yields holds a present value. */
  lemma {:induction false} ModelRefsPresent(fs: seq<Field>, conditionKeys: seq<string>)
    ensures forall r :: r in ModelRefsOf(fs, false, conditionKeys) ==> Present(r.value)
    decreases fs
  {
    if |fs| > 0 {
      var f := fs[|fs| - 1];
      ModelRefsPresent(fs[..|fs| - 1], conditionKeys);
      if f.val.Obj? {
        ModelRefsPresent(f.val.fields, conditionKeys);
        var subs := ModelRefsOf(f.val.fields, false, conditionKeys);
        assert forall j :: 0 <= j < |subs| ==> ModelRefsUnder(f.key, subs, conditionKeys)[j].value == subs[j].value;
      }
    }
  }

  /** Whichever `falsy` the caller gives, a nested object contributes only
      present values. */
  lemma NestedIgnoresFalsy(key: string, v: Value, falsy: bool, conditionKeys: seq<string>)
    requires v.Obj?
    ensures EntryModelRefs(key, v, falsy, conditionKeys) == EntryModelRefs(key, v, false, conditionKeys)
    ensures forall r :: r in EntryModelRefs(key, v, falsy, conditionKeys) ==> Present(r.value)
  {
    ModelRefsPresent(v.fields, conditionKeys);
    var subs := ModelRefsOf(v.fields, false, conditionKeys);
    assert forall j :: 0 <= j < |subs| ==> ModelRefsUnder(key, subs, conditionKeys)[j].value == subs[j].value;
  }

  /** Each reference an entry yields is named by the entry's key, alone or
      followed by a dot. */
  lemma EntryModelRefKeys(key: string, v: Value, falsy: bool, conditionKeys: seq<string>)
    ensures forall r :: r in EntryModelRefs(key, v, falsy, conditionKeys) ==>
      r.key == key || StartsWith(r.key, key + ".")
  {
    if v.Obj? {
      var subs := ModelRefsOf(v.fields, false, conditionKeys);
      forall r | r in EntryModelRefs(key, v, falsy, conditionKeys)
        ensures r.key == key || StartsWith(r.key, key + ".")
      {
        var j :| 0 <= j < |subs| && ModelRefsUnder(key, subs, conditionKeys)[j] == r;
        if subs[j].key !in conditionKeys {
          assert (key + "." + subs[j].key)[..|key + "."|] == key + ".";
        }
      }
    }
  }

  /** Every reference comes from one entry of the object. */
  lemma {:induction false} ModelRefOrigin(fs: seq<Field>, falsy: bool, conditionKeys: seq<string>, r: DataRef)
    requires r in ModelRefsOf(fs, falsy, conditionKeys)
    ensures exists j :: 0 <= j < |fs| && r in EntryModelRefs(fs[j].key, fs[j].val, falsy, conditionKeys)
    decreases fs
  {
    var n := |fs| - 1;
    if r !in EntryModelRefs(fs[n].key, fs[n].val, falsy, conditionKeys) {
      ModelRefOrigin(fs[..n], falsy, conditionKeys, r);
      var j :| 0 <= j < n && r in EntryModelRefs(fs[..n][j].key, fs[..n][j].val, falsy, conditionKeys);
      assert fs[..n][j] == fs[j];
    }
  }

  /** A top-level scalar or array entry is kept exactly when it is present
      or `falsy` is given (on objects whose keys are distinct and free of
      dots, so that no other entry can yield the same reference). */
  lemma TopLevelKept(fs: seq<Field>, falsy: bool, conditionKeys: seq<string>, i: nat)
    requires PlainKeys(Obj(fs)) && i < |fs| && !fs[i].val.Obj?
    ensures DataRef(fs[i].key, Untyped, fs[i].val) in ModelRefsOf(fs, falsy, conditionKeys)
            <==> Present(fs[i].val) || falsy
  {
    var r := DataRef(fs[i].key, Untyped, fs[i].val);
    if Present(fs[i].val) || falsy {
      TopLevelIn(fs, falsy, conditionKeys, i);
    } else if r in ModelRefsOf(fs, falsy, conditionKeys) {
      ModelRefOrigin(fs, falsy, conditionKeys, r);
      var j :| 0 <= j < |fs| && r in EntryModelRefs(fs[j].key, fs[j].val, falsy, conditionKeys);
      EntryModelRefKeys(fs[j].key, fs[j].val, falsy, conditionKeys);
      NotUnderDotted(fs[i].key, fs[j].key);
    }
  }

  /** A key without a dot is not a dotted path below another key. */
  lemma NotUnderDotted(a: string, b: string)
    requires Avoids(a, ".")
    ensures !StartsWith(a, b + ".")
  {
    if |b| < |a| {
      assert a[|b|] != '.';
      assert a[..|b| + 1][|b|] == a[|b|];
    }
  }

  lemma {:induction false} TopLevelIn(fs: seq<Field>, falsy: bool, conditionKeys: seq<string>, i: nat)
    requires i < |fs| && !fs[i].val.Obj? && (Present(fs[i].val) || falsy)
    ensures DataRef(fs[i].key, Untyped, fs[i].val) in ModelRefsOf(fs, falsy, conditionKeys)
    decreases |fs|
  {
    if i < |fs| - 1 {
      TopLevelIn(fs[..|fs| - 1], falsy, conditionKeys, i);
    }
  }

  /** A nested operator key collapses onto its parent, and the nested
      null is dropped although `falsy` is given. */
  lemma ModelRefMapExample()
    ensures ModelRefsOf([Field("price", Obj([Field("gt", Num(5)), Field("unit", Null)])),
                         Field("name", Null)], true, ["gt"])
            == [DataRef("price", Untyped, Num(5)), DataRef("name", Untyped, Null)]
  {
    var inner := [Field("gt", Num(5)), Field("unit", Null)];
    assert inner[..1] == [Field("gt", Num(5))];
    assert ModelRefsOf(inner, false, ["gt"]) == [DataRef("gt", Untyped, Num(5))];
    var fs := [Field("price", Obj(inner)), Field("name", Null)];
    assert fs[..1] == [Field("price", Obj(inner))];
  }

  // ---------------------------------------------------------------------
  // encodeModelURI
  // ---------------------------------------------------------------------

  /** What `<${val}>` gives for one element of a range inside `map`: a hole
      stays a hole, which `join` writes as nothing. */
  function RangeText(sl: Slot): string {
    if sl.Hole? then "" else "<" + ToJsString(sl.value) + ">"
  }

  function RangeTexts(items: seq<Slot>): (r: seq<string>)
    ensures |r| == |items| && forall i :: 0 <= i < |items| ==> r[i] == RangeText(items[i])
  {
    seq(|items|, i requires 0 <= i < |items| => RangeText(items[i]))
  }

  /** The segment `encodeModelURI` writes for one reference; `join` and
      `map` throw on a value that is not an array. */
  function EncodeRef(r: DataRef): (out: Outcome<string>)
    ensures out.Threw? <==> (r.typ.Multiple? || r.typ.Range?) && !r.value.Arr?
    ensures out.Returned? ==> StartsWith(out.value, r.key + "=")
  {
    if (r.typ.Multiple? || r.typ.Range?) && !r.value.Arr? then Threw(TYPE_ERROR)
    else
      var segment := r.key + "=" + ValueText(r);
      assert segment[..|r.key + "="|] == r.key + "=";
      Returned(segment)
  }

  /** The text after `=`: `[v1,v2]` for a list, `<v1><v2>` for a range,
      the value's own text otherwise. */
  function ValueText(r: DataRef): string
    requires (r.typ.Multiple? || r.typ.Range?) ==> r.value.Arr?
  {
    match r.typ
    case Multiple => "[" + Join(ItemTexts(r.value.items), ",") + "]"
    case Range => Join(RangeTexts(r.value.items), "")
    case _ => ToJsString(r.value)
  }

  /** `refs.map(...)`: the segments in order, or the first error. */
  function EncodeRefs(refs: seq<DataRef>): (r: Outcome<seq<string>>)
    ensures r.Returned? <==> forall i :: 0 <= i < |refs| ==> EncodeRef(refs[i]).Returned?
    ensures r.Returned? ==> (|r.value| == |refs| &&
      forall i :: 0 <= i < |refs| ==> EncodeRef(refs[i]) == Returned(r.value[i]))
  {
    if |refs| == 0 then Returned([])
    else match EncodeRef(refs[0])
      case Threw(e) => Threw(e)
      case Returned(segment) =>
        match EncodeRefs(refs[1..])
        case Threw(e) => Threw(e)
        case Returned(rest) => Returned([segment] + rest)
  }

  /** `encodeModelURI(refs)`: the segments joined by `&`. */
  function EncodeModelURI(refs: seq<DataRef>): (r: Outcome<string>)
    ensures r.Returned? <==> forall i :: 0 <= i < |refs| ==> EncodeRef(refs[i]).Returned?
    ensures |refs| == 0 ==> r == Returned("")
  {
    match EncodeRefs(refs)
    case Threw(e) => Threw(e)
    case Returned(segments) => Returned(Join(segments, "&"))
  }

  // ---------------------------------------------------------------------
  // decodeModelURI
  // ---------------------------------------------------------------------

  /** The characters the regular expression class `\s` matches. */
  predicate IsSpace(c: char) {
    c == ' ' || c == '\t' || c == '\n' || c == '\r' || c == '\U{B}' || c == '\U{C}' ||
    c == '\U{A0}' || c == '\U{1680}' || '\U{2000}' <= c <= '\U{200A}' || c == '\U{2028}' ||
    c == '\U{2029}' || c == '\U{202F}' || c == '\U{205F}' || c == '\U{3000}' || c == '\U{FEFF}'
  }

  /** An optional `\s` at the front of `s`. */
  function SkipSpace(s: string): (r: string)
    ensures |r| <= |s|
  {
    if |s| > 0 && IsSpace(s[0]) then s[1..] else s
  }

  /** `s.split(/\s?,\s?/)`: the pieces between commas, each comma taking
      at most one whitespace character on either side with it. */
  function SplitList(s: string): (parts: seq<string>)
    ensures |parts| >= 1
    decreases |s|
  {
    if |s| == 0 then [""]
    else if |s| >= 2 && IsSpace(s[0]) && s[1] == ',' then [""] + SplitList(SkipSpace(s[2..]))
    else if s[0] == ',' then [""] + SplitList(SkipSpace(s[1..]))
    else
      var rest := SplitList(s[1..]);
      [[s[0]] + rest[0]] + rest[1..]
  }

  /** `.map(v => strToType(v))` */
  function Converted(texts: seq<string>): (r: seq<Slot>)
    ensures |r| == |texts| && forall i :: 0 <= i < |texts| ==> r[i] == Item(StrToType(Str(texts[i])))
  {
    seq(|texts|, i requires 0 <= i < |texts| => Item(StrToType(Str(texts[i]))))
  }

  /** The texts as an array of strings. */
  function Texts(texts: seq<string>): (r: seq<Slot>)
    ensures |r| == |texts| && forall i :: 0 <= i < |texts| ==> r[i] == Item(Str(texts[i]))
  {
    seq(|texts|, i requires 0 <= i < |texts| => Item(Str(texts[i])))
  }

  /** The reference one segment decodes to. The value is the text between
      the first and the second `=`; without any `=` it is undefined, and
      `value.startsWith` throws. */
  function DecodeSegment(segment: string): (r: Outcome<DataRef>)
    ensures r.Threw? <==> |Split(segment, "=")| == 1
    ensures r.Returned? ==> !r.value.typ.Untyped?
    ensures r.Returned? && !r.value.typ.Single? ==> r.value.value.Arr?
  {
    var parts := Split(segment, "=");
    if |parts| < 2 then Threw(TYPE_ERROR) else Returned(DecodeValue(parts[0], parts[1]))
  }

  /** The reference for `key` and the value text `value`, by its form. */
  function DecodeValue(key: string, value: string): (r: DataRef)
    ensures !r.typ.Untyped?
    ensures !r.typ.Single? ==> r.value.Arr?
  {
    if StartsWith(value, "~") then
      DataRef(key + ".inq", Multiple, Arr(Converted(SplitList(value[1..]))))
    else if StartsWith(value, "[") && EndsWith(value, "]") then
      assert value[0] == '[' && value[|value| - 1] == ']';
      DataRef(key + ".inq", Multiple, Arr(Converted(SplitList(value[1..|value| - 1]))))
    else if StartsWith(value, "<") && EndsWith(value, ">") then
      assert value[0] == '<' && value[|value| - 1] == '>';
      DataRef(key + ".between", Range, Arr(Texts(Split(value[1..|value| - 1], "><"))))
    else
      DataRef(key, Single, StrToType(Str(value)))
  }

  /** `.filter(segment => segment)`: the non-empty segments, in order. */
  function NonEmpty(ss: seq<string>): (r: seq<string>)
    ensures |r| <= |ss|
    ensures forall i :: 0 <= i < |r| ==> r[i] != "" && r[i] in ss
    ensures (forall i :: 0 <= i < |ss| ==> ss[i] != "") ==> r == ss
    ensures forall x :: x in ss && x != "" ==> x in r
    ensures |ss| == 1 ==> r == (if ss[0] == "" then [] else ss)
  {
    if |ss| == 0 then []
    else if ss[0] == "" then NonEmpty(ss[1..])
    else [ss[0]] + NonEmpty(ss[1..])
  }

  /** Filtering a concatenation filters each part and keeps their order;
      with the one-element case above this determines `NonEmpty` fully: the
      non-empty segments, each once, in their original order. */
  lemma {:induction false} NonEmptyConcat(a: seq<string>, b: seq<string>)
    ensures NonEmpty(a + b) == NonEmpty(a) + NonEmpty(b)
    decreases |a|
  {
    if |a| > 0 {
      assert (a + b)[0] == a[0];
      assert (a + b)[1..] == a[1..] + b;
      NonEmptyConcat(a[1..], b);
    } else {
      assert a + b == b;
    }
  }

  /** `.map(segment => ...)`: one reference per segment, in order, or the
      first error. */
  function DecodeSegments(segments: seq<string>): (r: Outcome<seq<DataRef>>)
    ensures r.Returned? <==> forall i :: 0 <= i < |segments| ==> DecodeSegment(segments[i]).Returned?
    ensures r.Returned? ==> (|r.value| == |segments| &&
      forall i :: 0 <= i < |segments| ==> DecodeSegment(segments[i]) == Returned(r.value[i]))
  {
    if |segments| == 0 then Returned([])
    else match DecodeSegment(segments[0])
      case Threw(e) => Threw(e)
      case Returned(ref) =>
        match DecodeSegments(segments[1..])
        case Threw(e) => Threw(e)
        case Returned(rest) => Returned([ref] + rest)
  }

  /** `decodeModelURI(uri)`. */
  function DecodeModelURI(uri: string): (r: Outcome<seq<DataRef>>)
    ensures r.Returned? ==> |r.value| <= |Split(uri, "&")|
    ensures r.Returned? ==> forall i :: 0 <= i < |r.value| ==> !r.value[i].typ.Untyped?
    ensures r.Returned? ==>
              var kept := NonEmpty(Split(uri, "&"));
              |r.value| == |kept| &&
              forall i :: 0 <= i < |kept| ==> DecodeSegment(kept[i]) == Returned(r.value[i])
  {
    DecodeSegments(NonEmpty(Split(uri, "&")))
  }

  /** Decoding throws exactly when some non-empty `&`-segment has no `=`. */
  lemma DecodeModelURIThrows(uri: string)
    ensures DecodeModelURI(uri).Threw? <==>
              exists i :: 0 <= i < |Split(uri, "&")| && Split(uri, "&")[i] != "" &&
                          |Split(Split(uri, "&")[i], "=")| == 1
  {
    var ss := Split(uri, "&");
    var kept := NonEmpty(ss);
    if DecodeSegments(kept).Threw? {
      var j :| 0 <= j < |kept| && !DecodeSegment(kept[j]).Returned?;
      assert kept[j] in ss;
      var i :| 0 <= i < |ss| && ss[i] == kept[j];
      assert ss[i] != "" && |Split(ss[i], "=")| == 1;
      assert DecodeModelURI(uri).Threw?;
      assert exists k :: 0 <= k < |Split(uri, "&")| && Split(uri, "&")[k] != "" &&
                         |Split(Split(uri, "&")[k], "=")| == 1;
    } else {
      forall i | 0 <= i < |ss| && ss[i] != ""
        ensures |Split(ss[i], "=")| != 1
      {
        assert ss[i] in kept;
        var j :| 0 <= j < |kept| && kept[j] == ss[i];
        assert DecodeSegment(kept[j]).Returned?;
      }
    }
  }

  // ---------------------------------------------------------------------
  // The codec round trip
  // ---------------------------------------------------------------------

  /** Characters a list element may hold and still come back whole from
      `split(/\s?,\s?/)` inside one segment. */
  predicate ListSafe(t: string) {
    forall i :: 0 <= i < |t| ==> t[i] != ',' && !IsSpace(t[i]) && t[i] != '&' && t[i] != '='
  }

  /** A value text that decodes as a single value. */
  predicate SingleSafe(t: string) {
    Avoids(t, "&=") && !StartsWith(t, "~") &&
    !(StartsWith(t, "[") && EndsWith(t, "]")) && !(StartsWith(t, "<") && EndsWith(t, ">"))
  }

  /** The references the codec carries through unchanged in meaning: a key
      without `&` or `=`, and a value whose text cannot be mistaken for
      another form or broken apart. Every element of a list or a range is
      assigned (no holes), and there is at least one. */
  predicate Codable(r: DataRef) {
    Avoids(r.key, "&=") &&
    match r.typ
    case Multiple =>
      r.value.Arr? && |r.value.items| >= 1 &&
      forall i :: 0 <= i < |r.value.items| ==> r.value.items[i].Item? && ListSafe(ItemText(r.value.items[i]))
    case Range =>
      r.value.Arr? && |r.value.items| >= 1 &&
      forall i :: 0 <= i < |r.value.items| ==>
        r.value.items[i].Item? && Avoids(ToJsString(r.value.items[i].value), "<>&=")
    case _ => SingleSafe(ToJsString(r.value))
  }

  /** The texts of a range's elements. */
  function RangeValues(items: seq<Slot>): (r: seq<string>)
    ensures |r| == |items| && forall i :: 0 <= i < |items| ==> r[i] == ToJsString(SlotValue(items, i))
  {
    seq(|items|, i requires 0 <= i < |items| => ToJsString(SlotValue(items, i)))
  }

  /** What decoding gives back for a codable reference: a list as `k.inq`
      with its element texts converted by `strToType`, a range as
      `k.between` with its element texts as strings, anything else as a
      single value converted from its text. */
  function Decoded(r: DataRef): DataRef {
    match r.typ
    case Multiple =>
      DataRef(r.key + ".inq", Multiple, if r.value.Arr? then Arr(Converted(ItemTexts(r.value.items))) else r.value)
    case Range =>
      DataRef(r.key + ".between", Range, if r.value.Arr? then Arr(Texts(RangeValues(r.value.items))) else r.value)
    case _ => DataRef(r.key, Single, StrToType(Str(ToJsString(r.value))))
  }

  lemma AvoidsBoth(t: string, a: char, b: char)
    requires Avoids(t, [a, b])
    ensures Avoids(t, [a]) && Avoids(t, [b])
  {
  }

  /** A list element text is split off whole at a following comma. */
  lemma {:induction false} SplitListAvoiding(a: string, b: string)
    requires ListSafe(a) && (|b| == 0 || !IsSpace(b[0]))
    ensures SplitList(a + "," + b) == [a] + SplitList(b)
    decreases |a|
  {
    var s := a + "," + b;
    if |a| == 0 {
      assert s == "," + b && s[1..] == b;
    } else {
      assert s[0] == a[0];
      assert s[1..] == a[1..] + "," + b;
      SplitListAvoiding(a[1..], b);
      assert [a[0]] + a[1..] == a;
    }
  }

  lemma {:induction false} SplitListNone(a: string)
    requires ListSafe(a)
    ensures SplitList(a) == [a]
    decreases |a|
  {
    if |a| > 0 {
      SplitListNone(a[1..]);
      assert [a[0]] + a[1..] == a;
    }
  }

  /** Splitting a comma join of list-safe texts gives the texts back. */
  lemma {:induction false} SplitListJoin(parts: seq<string>)
    requires |parts| >= 1 && forall i :: 0 <= i < |parts| ==> ListSafe(parts[i])
    ensures SplitList(Join(parts, ",")) == parts
    decreases |parts|
  {
    if |parts| == 1 {
      SplitListNone(parts[0]);
    } else {
      var rest := parts[1..];
      SplitListJoin(rest);
      var b := Join(rest, ",");
      JoinHead(rest, ",");
      SplitListAvoiding(parts[0], b);
      assert [parts[0]] + rest == parts;
    }
  }

  /** A join begins with its first piece, or with the separator when that
      piece is empty. */
  lemma JoinHead(parts: seq<string>, sep: string)
    requires |parts| >= 1
    ensures |parts[0]| > 0 ==> |Join(parts, sep)| > 0 && Join(parts, sep)[0] == parts[0][0]
    ensures |parts[0]| == 0 && |parts| > 1 && |sep| > 0 ==> |Join(parts, sep)| > 0 && Join(parts, sep)[0] == sep[0]
    ensures |parts[0]| == 0 && |parts| == 1 ==> Join(parts, sep) == ""
  {
  }

  /** The text of a range: each element between `<` and `>`. */
  lemma {:induction false} RangeTextsJoin(items: seq<Slot>)
    requires |items| >= 1 && forall i :: 0 <= i < |items| ==> items[i].Item?
    ensures Join(RangeTexts(items), "") == "<" + Join(RangeValues(items), "><") + ">"
    decreases |items|
  {
    var v0 := RangeValues(items)[0];
    assert RangeText(items[0]) == "<" + v0 + ">";
    if |items| == 1 {
      assert RangeTexts(items) == [RangeText(items[0])];
      assert RangeValues(items) == [v0];
    } else {
      var rest := items[1..];
      RangeTextsJoin(rest);
      RangeTextsCons(items);
      JoinCons(RangeText(items[0]), RangeTexts(rest), "");
      JoinCons(v0, RangeValues(rest), "><");
      Bracketed(v0, Join(RangeValues(rest), "><"));
    }
  }

  /** The texts of a range split off at its first element. */
  lemma RangeTextsCons(items: seq<Slot>)
    requires |items| >= 1
    ensures RangeTexts(items) == [RangeText(items[0])] + RangeTexts(items[1..])
    ensures RangeValues(items) == [RangeValues(items)[0]] + RangeValues(items[1..])
  {
    var rest := items[1..];
    var a, b := RangeTexts(items), [RangeText(items[0])] + RangeTexts(rest);
    forall i | 0 <= i < |a| ensures a[i] == b[i] {
      if i > 0 {
        assert b[i] == RangeTexts(rest)[i - 1];
        assert rest[i - 1] == items[i];
      }
    }
    var c, d := RangeValues(items), [RangeValues(items)[0]] + RangeValues(rest);
    forall i | 0 <= i < |c| ensures c[i] == d[i] {
      if i > 0 {
        assert d[i] == RangeValues(rest)[i - 1];
        assert SlotValue(rest, i - 1) == SlotValue(items, i);
      }
    }
  }

  /** Two bracketed texts side by side are one bracketed text with `><`
      between them. */
  lemma Bracketed(a: string, b: string)
    ensures ("<" + a + ">") + "" + ("<" + b + ">") == "<" + (a + "><" + b) + ">"
  {
    assert ("<" + a + ">") + "" + ("<" + b + ">") == "<" + a + "><" + b + ">";
  }

  /** A segment whose key and value have no `&` or `=` is non-empty, has
      no `&`, and splits at its one `=`. */
  lemma SegmentParts(key: string, text: string)
    requires Avoids(key, "&=") && Avoids(text, "&=")
    ensures var segment := key + "=" + text;
      segment != "" && Avoids(segment, "&") && Split(segment, "=") == [key, text]
  {
    AvoidsBoth(key, '&', '=');
    AvoidsBoth(text, '&', '=');
    SplitAvoiding(key, "=", text);
    SplitNone(text, "=");
    AvoidsAppend(key, "=", "&");
    AvoidsAppend(key + "=", text, "&");
  }

  lemma DecodeBracketed(key: string, inner: string)
    ensures DecodeValue(key, "[" + inner + "]") == DataRef(key + ".inq", Multiple, Arr(Converted(SplitList(inner))))
  {
    var text := "[" + inner + "]";
    assert text[0] == '[' && text[|text| - 1] == ']';
    assert !StartsWith(text, "~");
    assert StartsWith(text, "[") && EndsWith(text, "]") by {
      assert text[..1] == "[" && text[|text| - 1..] == "]";
    }
    assert text[1..|text| - 1] == inner;
  }

  lemma DecodeAngled(key: string, inner: string)
    ensures DecodeValue(key, "<" + inner + ">") == DataRef(key + ".between", Range, Arr(Texts(Split(inner, "><"))))
  {
    var text := "<" + inner + ">";
    assert text[0] == '<' && text[|text| - 1] == '>';
    DecodeAngledText(key, text);
    assert text[1..|text| - 1] == inner;
  }

  /** A text between `<` and `>` decodes as a range of what is inside. */
  lemma DecodeAngledText(key: string, text: string)
    requires |text| >= 2 && text[0] == '<' && text[|text| - 1] == '>'
    ensures DecodeValue(key, text) == DataRef(key + ".between", Range, Arr(Texts(Split(text[1..|text| - 1], "><"))))
  {
    assert !StartsWith(text, "~");
    assert !StartsWith(text, "[");
    assert StartsWith(text, "<") && EndsWith(text, ">") by {
      assert text[..1] == "<" && text[|text| - 1..] == ">";
    }
  }

  /** A list of list-safe texts decodes to the converted texts. */
  lemma ListRoundTrip(key: string, parts: seq<string>)
    requires |parts| >= 1 && forall i :: 0 <= i < |parts| ==> ListSafe(parts[i])
    ensures Avoids("[" + Join(parts, ",") + "]", "&=")
    ensures DecodeValue(key, "[" + Join(parts, ",") + "]") == DataRef(key + ".inq", Multiple, Arr(Converted(parts)))
  {
    ListTextAvoids(parts);
    SplitListJoin(parts);
    DecodeBracketed(key, Join(parts, ","));
  }

  lemma ListTextAvoids(parts: seq<string>)
    requires forall i :: 0 <= i < |parts| ==> ListSafe(parts[i])
    ensures Avoids("[" + Join(parts, ",") + "]", "&=")
  {
    forall i | 0 <= i < |parts| ensures Avoids(parts[i], "&=") { }
    JoinAvoids(parts, ",", "&=");
    AvoidsAppend("[", Join(parts, ","), "&=");
    AvoidsAppend("[" + Join(parts, ","), "]", "&=");
  }

  /** A range of texts without `<` and `>` decodes to its texts. */
  lemma RangeTextRoundTrip(key: string, items: seq<Slot>)
    requires |items| >= 1
    requires forall i :: 0 <= i < |items| ==> items[i].Item? && Avoids(ToJsString(items[i].value), "<>&=")
    ensures Avoids(Join(RangeTexts(items), ""), "&=")
    ensures DecodeValue(key, Join(RangeTexts(items), "")) == DataRef(key + ".between", Range, Arr(Texts(RangeValues(items))))
  {
    var values := RangeValues(items);
    RangeTextsJoin(items);
    forall i | 0 <= i < |values| ensures Avoids(values[i], "><") && Avoids(values[i], "&=") {
      assert SlotValue(items, i) == items[i].value;
    }
    SplitJoin(values, "><");
    DecodeAngled(key, Join(values, "><"));
    JoinAvoids(values, "><", "&=");
    AvoidsAppend("<", Join(values, "><"), "&=");
    AvoidsAppend("<" + Join(values, "><"), ">", "&=");
  }

  /** The segment of a codable reference is non-empty, has no `&`, and
      decodes to the reference's decoded form. */
  lemma SegmentRoundTrip(r: DataRef)
    requires Codable(r)
    ensures EncodeRef(r).Returned?
    ensures EncodeRef(r).value != "" && Avoids(EncodeRef(r).value, "&")
    ensures DecodeSegment(EncodeRef(r).value) == Returned(Decoded(r))
  {
    var text := ValueText(r);
    match r.typ {
      case Multiple =>
        ListRoundTrip(r.key, ItemTexts(r.value.items));
      case Range =>
        RangeTextRoundTrip(r.key, r.value.items);
      case _ =>
    }
    SegmentParts(r.key, text);
  }

  /** A join avoids what its pieces and its separator avoid. */
  lemma {:induction false} JoinAvoids(parts: seq<string>, sep: string, chars: string)
    requires Avoids(sep, chars) && forall i :: 0 <= i < |parts| ==> Avoids(parts[i], chars)
    ensures Avoids(Join(parts, sep), chars)
    decreases |parts|
  {
    if |parts| > 1 {
      JoinAvoids(parts[1..], sep, chars);
      AvoidsAppend(parts[0], sep, chars);
      AvoidsAppend(parts[0] + sep, Join(parts[1..], sep), chars);
    }
  }

  lemma AvoidsAppend(a: string, b: string, chars: string)
    requires Avoids(a, chars) && Avoids(b, chars)
    ensures Avoids(a + b, chars)
  {
    forall i | 0 <= i < |a + b| ensures (a + b)[i] !in chars {
      if i >= |a| { assert (a + b)[i] == b[i - |a|]; }
    }
  }

  /** Decoding an encoded list of codable references gives, in order, one
      decoded reference per reference. */
  lemma EncodeDecodeRoundTrip(refs: seq<DataRef>)
    requires forall i :: 0 <= i < |refs| ==> Codable(refs[i])
    ensures EncodeModelURI(refs).Returned?
    ensures DecodeModelURI(EncodeModelURI(refs).value) ==
      Returned(seq(|refs|, i requires 0 <= i < |refs| => Decoded(refs[i])))
  {
    forall i | 0 <= i < |refs| ensures EncodeRef(refs[i]).Returned? {
      SegmentRoundTrip(refs[i]);
    }
    var segments := EncodeRefs(refs).value;
    forall i | 0 <= i < |segments|
      ensures segments[i] != "" && Avoids(segments[i], "&")
      ensures DecodeSegment(segments[i]) == Returned(Decoded(refs[i]))
    {
      SegmentRoundTrip(refs[i]);
    }
    if |refs| == 0 {
      assert Split("", "&") == [""];
    } else {
      SplitJoin(segments, "&");
    }
    var decoded := DecodeModelURI(EncodeModelURI(refs).value);
    assert decoded.value == seq(|refs|, i requires 0 <= i < |refs| => Decoded(refs[i]));
  }

  /** A boolean, null, undefined or non-zero number given as a single value
      comes back as itself. */
  lemma ScalarRoundTrip(key: string, v: Value)
    requires Avoids(key, "&=")
    requires v.Bool? || v.Null? || v.Undefined? || (v.Num? && v.n != 0)
    ensures Codable(DataRef(key, Single, v))
    ensures Decoded(DataRef(key, Single, v)) == DataRef(key, Single, v)
  {
    StrToTypeRoundTrip(v);
    ScalarTextSafe(v);
  }

  /** The text of a boolean, null, undefined or number reads as a single
      value. */
  lemma ScalarTextSafe(v: Value)
    requires v.Bool? || v.Null? || v.Undefined? || v.Num?
    ensures SingleSafe(ToJsString(v))
  {
    var t := ToJsString(v);
    if v.Num? {
      var digits := NatToString(if v.n < 0 then -v.n else v.n);
      assert t == if v.n < 0 then "-" + digits else digits;
      assert forall i :: 0 <= i < |t| ==> t[i] == '-' || IsDigit(t[i]);
    }
    assert t[0] != '~' && t[0] != '[' && t[0] != '<';
  }

  /** A range of plain texts comes back with its texts; a list of numbers
      and booleans comes back with its values. */
  lemma RangeRoundTrip(key: string, values: seq<string>)
    requires Avoids(key, "&=") && |values| >= 1
    requires forall i :: 0 <= i < |values| ==> Avoids(values[i], "<>&=")
    ensures DecodeModelURI(EncodeModelURI([DataRef(key, Range, Arr(Texts(values)))]).value)
         == Returned([DataRef(key + ".between", Range, Arr(Texts(values)))])
  {
    var r := DataRef(key, Range, Arr(Texts(values)));
    assert Codable(r);
    EncodeDecodeRoundTrip([r]);
    assert RangeValues(Texts(values)) == values;
    assert seq(1, i requires 0 <= i < 1 => Decoded([r][i])) == [Decoded(r)];
  }

  // ---------------------------------------------------------------------
  // Decoding examples
  // ---------------------------------------------------------------------

  /** A value after `~` is a list, with one optional space taken with
      each comma. */
  lemma TildeValue()
    ensures DecodeValue("tags", "~a, b") == DataRef("tags.inq", Multiple, Arr([Item(Str("a")), Item(Str("b"))]))
  {
    assert "~a, b"[..1] == "~" && "~a, b"[1..] == "a, b";
    TildeSplit();
    assert !IsDecimalLiteral("a") && !IsDecimalLiteral("b");
    assert "tags" + ".inq" == "tags.inq";
  }

  lemma TildeSplit()
    ensures SplitList("a, b") == ["a", "b"]
  {
    var s := "a, b";
    SplitListNone("b");
    assert SkipSpace(" b") == "b";
    assert SplitList(", b") == ["", "b"];
    assert s[1..] == ", b";
    assert s[0] == 'a' && !IsSpace(s[0]) && s[0] != ',';
    assert SplitList(s) == [[s[0]] + SplitList(s[1..])[0]] + SplitList(s[1..])[1..];
    assert [s[0]] + "" == "a";
    assert ["", "b"][1..] == ["b"];
  }

  lemma DecodeTildeExample()
    ensures DecodeSegment("tags=~a, b") == Returned(DataRef("tags.inq", Multiple, Arr([Item(Str("a")), Item(Str("b"))])))
  {
    SegmentParts("tags", "~a, b");
    var segment := "tags" + "=" + "~a, b";
    assert "tags" + "=" == "tags=";
    assert segment == "tags=~a, b";
    TildeValue();
  }

  /** A bracketed list is converted element by element; "0" stays a
      string. */
  lemma ListValue()
    ensures DecodeValue("ids", "[1,0]") == DataRef("ids.inq", Multiple, Arr([Item(Num(1)), Item(Str("0"))]))
  {
    ListText();
    ListRoundTrip("ids", ["1", "0"]);
    ListConverted();
    assert "ids" + ".inq" == "ids.inq";
  }

  lemma ListText()
    ensures "[" + Join(["1", "0"], ",") + "]" == "[1,0]"
  {
    assert Join(["1", "0"], ",") == "1,0";
  }

  lemma ListConverted()
    ensures Converted(["1", "0"]) == [Item(Num(1)), Item(Str("0"))]
  {
    StrToTypeRoundTrip(Num(1));
    assert ToJsString(Num(1)) == "1";
    StrToTypeKeepsZero("0");
  }

  lemma DecodeListExample()
    ensures DecodeSegment("ids=[1,0]") == Returned(DataRef("ids.inq", Multiple, Arr([Item(Num(1)), Item(Str("0"))])))
  {
    SegmentParts("ids", "[1,0]");
    var segment := "ids" + "=" + "[1,0]";
    assert "ids" + "=" == "ids=";
    assert segment == "ids=[1,0]";
    ListValue();
  }

  /** A range keeps its bounds as strings. */
  lemma RangeBounds()
    ensures Split("18><65", "><") == ["18", "65"]
  {
    var parts := ["18", "65"];
    JoinCons("18", ["65"], "><");
    assert Join(parts, "><") == "18><65";
    assert Avoids("18", "><") && Avoids("65", "><");
    SplitJoin(parts, "><");
  }
  lemma RangeBoundsValue()
    ensures DecodeValue("age", "<18><65>") == DataRef("age.between", Range, Arr(Texts(Split("18><65", "><"))))
  {
    var text := "<18><65>";
    assert text[0] == '<' && text[|text| - 1] == '>';
    DecodeAngledText("age", text);
    assert text[1..|text| - 1] == "18><65";
    assert "age" + ".between" == "age.between";
  }
  lemma RangeValue()
    ensures DecodeValue("age", "<18><65>") == DataRef("age.between", Range, Arr([Item(Str("18")), Item(Str("65"))]))
  {
    RangeBounds();
    RangeBoundsValue();
    assert Texts(["18", "65"]) == [Item(Str("18")), Item(Str("65"))];
  }

  lemma DecodeRangeExample()
    ensures DecodeSegment("age=<18><65>") == Returned(DataRef("age.between", Range, Arr([Item(Str("18")), Item(Str("65"))])))
  {
    SegmentParts("age", "<18><65>");
    var segment := "age" + "=" + "<18><65>";
    assert "age" + "=" == "age=";
    assert segment == "age=<18><65>";
    RangeValue();
  }

  /** A plain value is converted by `strToType`. */
  lemma SingleValue()
    ensures DecodeValue("active", "true") == DataRef("active", Single, Bool(true))
  {
    assert "true"[..1] == "t" && "true"[|"true"| - 1..] == "e";
  }

  lemma DecodeSingleExample()
    ensures DecodeSegment("active=true") == Returned(DataRef("active", Single, Bool(true)))
  {
    SegmentParts("active", "true");
    var segment := "active" + "=" + "true";
    assert "active" + "=" == "active=";
    assert segment == "active=true";
    SingleValue();
  }

  /** A segment without `=` has an undefined value, and decoding throws. */
  lemma DecodeMissingValue()
    ensures DecodeSegment("flag").Threw?
  {
    SplitNone("flag", "=");
  }

  // ---------------------------------------------------------------------
  // decodeFiltersFromURL
  // ---------------------------------------------------------------------

  /** The keys `decodeFiltersFromURL` places at the top of the filter. */
  const ROOT_KEYS: seq<string> := ["page", "limit", "search"]

  /** The lodash path a decoded reference is written to. */
  function FilterPath(key: string): (path: seq<string>)
    ensures |path| >= 1
    ensures key in ROOT_KEYS ==> path == [key]
    ensures key !in ROOT_KEYS ==> path[0] == "where" && path[1..] == Split(key, ".")
  {
    if key in ROOT_KEYS then [key] else ["where"] + Split(key, ".")
  }

  /** The filter object after `_.set` of every reference, in order. */
  function FiltersOf(refs: seq<DataRef>): seq<Field>
    decreases |refs|
  {
    if |refs| == 0 then []
    else
      var last := refs[|refs| - 1];
      SetPath(FiltersOf(refs[..|refs| - 1]), FilterPath(last.key), last.value)
  }

  lemma FiltersOfStep(refs: seq<DataRef>, i: nat)
    requires i < |refs|
    ensures FiltersOf(refs[..i + 1]) == SetPath(FiltersOf(refs[..i]), FilterPath(refs[i].key), refs[i].value)
  {
    assert refs[..i + 1][..i] == refs[..i];
  }

  /** `decodeFiltersFromURL(uri)` on an already URI-decoded string. */
  method DecodeFiltersFromURL(uri: string) returns (filters: Outcome<seq<Field>>)
    ensures DecodeModelURI(uri).Threw? ==> filters == Threw(DecodeModelURI(uri).error)
    ensures DecodeModelURI(uri).Returned? ==> filters == Returned(FiltersOf(DecodeModelURI(uri).value))
  {
    var decoded := DecodeModelURI(uri);
    if decoded.Threw? {
      return Threw(decoded.error);
    }
    var refs := decoded.value;
    var result: seq<Field> := [];
    for i := 0 to |refs|
      invariant result == FiltersOf(refs[..i])
    {
      var ref := refs[i];
      FiltersOfStep(refs, i);
      if ref.key in ROOT_KEYS {
        result := SetPath(result, [ref.key], ref.value);
      } else {
        result := SetPath(result, ["where"] + Split(ref.key, "."), ref.value);
      }
    }
    assert refs[..|refs|] == refs;
    return Returned(result);
  }

  /** Only `page`, `limit`, `search` and `where` appear at the top of the
      filter, each once. */
  lemma {:induction false} FiltersTopKeys(refs: seq<DataRef>)
    ensures forall k :: k in KeysOf(FiltersOf(refs)) ==> k in ROOT_KEYS + ["where"]
    ensures DistinctKeys(FiltersOf(refs))
    decreases |refs|
  {
    if |refs| > 0 {
      var pre := FiltersOf(refs[..|refs| - 1]);
      var last := refs[|refs| - 1];
      FiltersTopKeys(refs[..|refs| - 1]);
      SetPathKeys(pre, FilterPath(last.key), last.value);
      SetPathDistinct(pre, FilterPath(last.key), last.value);
    }
  }

  lemma SetPathDistinct(fs: seq<Field>, path: seq<string>, v: Value)
    requires |path| >= 1 && DistinctKeys(fs)
    ensures DistinctKeys(SetPath(fs, path, v))
  {
  }

  /** Each reference is routed by its key: a root key at the top level, any
      other under `where`, at the path its dots spell. What it writes can be
      read back there, and no other top-level entry changes. */
  lemma FiltersRouting(refs: seq<DataRef>, ref: DataRef)
    ensures var after := FiltersOf(refs + [ref]);
      GetPath(after, FilterPath(ref.key)) == ref.value &&
      forall k :: k != FilterPath(ref.key)[0] ==> Get(after, k) == Get(FiltersOf(refs), k)
  {
    assert (refs + [ref])[..|refs|] == refs;
    SetPathGet(FiltersOf(refs), FilterPath(ref.key), ref.value);
  }
}
