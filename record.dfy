/**
 * `MetalRecord`: one record of a collection, with its local data, the
 * mirror of the last data known to the server, its status, its cache
 * entries and the collection calls that save, delete and fetch it; and
 * `MetalRecordList`, the selection over a list of records.
 *
 * The awaited collection calls are parameters: an `Outcome` saying what
 * the call resolved with or the error it rejected with. Each event
 * emitter of the record is represented by the log of what it emitted.
 */
module Records {
  import opened Text
  import opened JsValues
  import opened DiffEngine
  import DiffLemmas

  /** `MetalRecordState`. */
  datatype Status = Init | Sync | Ready

  /** One emission of one of the record's emitters. */
  datatype Notice =
    | StatusNotice(status: Status)       // statusChange
    | DataNotice(data: seq<Field>)       // dataChange
    | ErrorNotice(error: string)         // errorChange
    | SelectionNotice(selected: bool)    // selectionChange

  /** The two tiers of the state store, keyed by reference path: the
      persistent tier (`StateStore.store(path)`) and the memory tier
      (`StateStore.get(path)`). Each maps a path to the data last set
      there. */
  class StateStore {
    var persistent: map<string, seq<Field>>
    var memory: map<string, seq<Field>>

    constructor()
      ensures persistent == map[] && memory == map[]
    {
      persistent := map[];
      memory := map[];
    }
  }

  /** `state.data` of the state at `path`: a path nothing was set under
      reads as an empty object. */
  function StateData(tier: map<string, seq<Field>>, path: string): seq<Field> {
    if path in tier then tier[path] else []
  }

  /** The parent query, known here by how often its `selectionChange`
      emitted. */
  class MetalQuery {
    var selectionEmits: nat

    constructor()
      ensures selectionEmits == 0
    {
      selectionEmits := 0;
    }
  }

  class MetalRecord {
    const id: string
    /** The history reference path, the key of the record's data in the store. */
    const href: string
    /** The changes reference path, the key of its stashed changes. */
    const cref: string
    /** The collection's `configs.persistentCache` and `configs.memoryCache`. */
    const persistentCache: bool
    const memoryCache: bool
    const store: StateStore
    const query: MetalQuery?

    var status: Status
    var initialized: bool
    var mirror: seq<Field>
    var data: seq<Field>
    var deleted: bool
    var error: Option<string>
    /** `_options`, the find options of later fetches. */
    var options: seq<Field>
    /** The handle of the change subscription, while there is one. */
    var subscription: Option<string>
    var selected: bool
    /** Everything the record's emitters emitted, oldest first. */
    var notices: seq<Notice>

    /** Data and mirror are JavaScript objects, and the mirror is a JSON
        copy, as every assignment to it makes it. */
    ghost predicate Valid()
      reads this`data, this`mirror
    {
      WellFormed(Obj(data)) && WellFormed(Obj(mirror)) && CopyFields(mirror) == mirror
    }

    /** The `changes` getter, `diff(mirror, data)`: an object whose keys
        are keys of the mirror, or the error the walk throws. */
    function Changes(): (r: Result<Value>)
      reads this`mirror, this`data
      ensures r.Ok? ==> r.value.Obj?
      ensures r.Ok? ==> forall k :: k in KeysOf(r.value.fields) ==> k in KeysOf(mirror)
      ensures r.Err? ==> r.error == Fault
    {
      Diff(Obj(mirror), Obj(data), false)
    }

    /** The `hasChanges` getter: whether `changes` has a key. */
    function HasChanges(): (r: Outcome<bool>)
      reads this`mirror, this`data
      ensures r.Threw? <==> Changes().Err?
      ensures r == Returned(false) <==> Changes() == Ok(Obj([]))
    {
      match Changes()
      case Ok(c) => Returned(|c.fields| > 0)
      case Err(_) => Threw(TYPE_ERROR)
    }

    /** Whether the diff reports the mirror's `i`-th key as changed. */
    predicate KeyChanged(i: nat)
      reads this`mirror, this`data
      requires i < |mirror|
    {
      var c := KeyChange(mirror[i].val, Get(data, mirror[i].key), false);
      c.Ok? && c.value.Changed?
    }

    /** `hasChanges` is true exactly when the walk succeeds and some key of
        the mirror differs in the data. */
    lemma HasChangesIff()
      requires DistinctKeys(mirror)
      ensures HasChanges() == Returned(true) <==>
                Changes().Ok? && exists i :: 0 <= i < |mirror| && KeyChanged(i)
    {
      var w := ObjectWalk(mirror, data, false);
      if w.Ok? {
        DiffLemmas.ObjectWalkRecords(mirror, data, false);
        var cs := w.value.changes;
        if |cs| > 0 {
          assert KeysOf(cs)[0] == cs[0].key;
          assert cs[0].key in KeysOf(mirror);
          var i :| 0 <= i < |mirror| && KeysOf(mirror)[i] == cs[0].key;
          assert KeyChanged(i);
        }
        if exists i :: 0 <= i < |mirror| && KeyChanged(i) {
          var i :| 0 <= i < |mirror| && KeyChanged(i);
          assert mirror[i].key in KeysOf(cs);
        }
      }
    }

    /** What `_writeCache` leaves in the persistent tier: both of its
        branches write the data there. */
    function CachedTier(tier: map<string, seq<Field>>): map<string, seq<Field>>
      reads this`data
    {
      if persistentCache || memoryCache then tier[href := data] else tier
    }

    /** What `stash()` leaves in one tier when that tier is on. */
    function StashedTier(tier: map<string, seq<Field>>, on: bool): map<string, seq<Field>>
      reads this`mirror, this`data
    {
      if on && Changes().Ok? then tier[cref := Changes().value.fields] else tier
    }

    /** What `stash()` returns: it throws when it must read `changes` and
        the walk throws. */
    function StashOutcome(): Outcome<()>
      reads this`mirror, this`data
    {
      if (persistentCache || memoryCache) && Changes().Err? then Threw(TYPE_ERROR) else Returned(())
    }

    /** The constructor: the reference paths, a JSON copy of the seed as
        mirror, and a ready status when the seed has a truthy id. */
    constructor(collectionHref: string, id: string, seed: seq<Field>,
                persistentCache: bool, memoryCache: bool,
                store: StateStore, query: MetalQuery?)
      requires WellFormed(Obj(seed))
      ensures Valid()
      ensures this.id == id && this.store == store && this.query == query
      ensures this.persistentCache == persistentCache && this.memoryCache == memoryCache
      ensures href == collectionHref + "/" + id && cref == href + "/changes"
      ensures initialized == Truthy(Get(seed, "id"))
      ensures status == if Truthy(Get(seed, "id")) then Ready else Init
      ensures data == seed && mirror == CopyFields(seed)
      ensures !deleted && error == None && options == [] && subscription == None
      ensures !selected && notices == []
    {
      this.id := id;
      this.store := store;
      this.query := query;
      this.persistentCache := persistentCache;
      this.memoryCache := memoryCache;
      href := collectionHref + "/" + id;
      cref := collectionHref + "/" + id + "/changes";
      data := seed;
      deleted := false;
      error := None;
      options := [];
      subscription := None;
      selected := false;
      notices := [];
      if Truthy(Get(seed, "id")) {
        status := Ready;
        initialized := true;
      } else {
        status := Init;
        initialized := false;
      }
      mirror := CopyFields(seed);
      new;
      CopyFacts(seed);
    }

    /** A JSON copy of a JavaScript object is one, and is its own copy. */
    static lemma CopyFacts(fs: seq<Field>)
      requires WellFormed(Obj(fs))
      ensures WellFormed(Obj(CopyFields(fs))) && CopyFields(CopyFields(fs)) == CopyFields(fs)
    {
      CopyFieldsKeys(fs);
      CopyFieldsWellFormed(fs);
      CopyFieldsNormal(fs);
    }

    /** The `selected` setter. */
    method SetSelected(value: bool)
      modifies this, query
      ensures selected == value && notices == old(notices) + [SelectionNotice(value)]
      ensures query != null ==> query.selectionEmits == old(query.selectionEmits) + 1
      ensures SelectionOnly()
    {
      selected := value;
      notices := notices + [SelectionNotice(value)];
      if query != null {
        query.selectionEmits := query.selectionEmits + 1;
      }
    }

    /** What `selectAll` and `deselectAll` do to each record: the flag is
        set directly, bypassing the setter, and announced on the record. */
    method Mark(value: bool)
      modifies this
      ensures selected == value && notices == old(notices) + [SelectionNotice(value)]
      ensures SelectionOnly()
    {
      selected := value;
      notices := notices + [SelectionNotice(value)];
    }

    /** Nothing but the selection and the notices changed. */
    twostate predicate SelectionOnly()
      reads this
    {
      status == old(status) && initialized == old(initialized) && mirror == old(mirror) &&
      data == old(data) && deleted == old(deleted) && error == old(error) &&
      options == old(options) && subscription == old(subscription)
    }

    /** `_writeCache()`. */
    method WriteCache()
      modifies store
      ensures store.persistent == old(CachedTier(store.persistent))
      ensures store.memory == old(store.memory)
    {
      if persistentCache {
        store.persistent := store.persistent[href := data];
      }
      if memoryCache {
        store.persistent := store.persistent[href := data];
      }
    }

    /** `stash()`: the changes go to the changes path of each tier that is
        on; reading them throws when the walk throws. */
    method Stash() returns (r: Outcome<()>)
      modifies store
      ensures r == StashOutcome()
      ensures store.persistent == old(StashedTier(store.persistent, persistentCache))
      ensures store.memory == old(StashedTier(store.memory, memoryCache))
    {
      if persistentCache {
        var changes := Changes();
        if changes.Err? {
          return Threw(TYPE_ERROR);
        }
        store.persistent := store.persistent[cref := changes.value.fields];
      }
      if memoryCache {
        var changes := Changes();
        if changes.Err? {
          return Threw(TYPE_ERROR);
        }
        store.memory := store.memory[cref := changes.value.fields];
      }
      return Returned(());
    }

    /** `set(key, value)`: `_.set` on the key's dotted path, then the data
        notice and a stash. The mirror does not change. */
    method SetKey(key: string, value: Value) returns (r: Outcome<()>)
      requires Valid() && WellFormed(value)
      modifies this, store
      ensures Valid()
      ensures data == SetPath(old(data), Split(key, "."), value)
      ensures GetPath(data, Split(key, ".")) == value
      ensures mirror == old(mirror) && status == old(status) && initialized == old(initialized)
      ensures deleted == old(deleted) && error == old(error) && options == old(options)
      ensures subscription == old(subscription) && selected == old(selected)
      ensures notices == old(notices) + [DataNotice(data)]
      ensures r == StashOutcome()
      ensures store.persistent == StashedTier(old(store.persistent), persistentCache)
      ensures store.memory == StashedTier(old(store.memory), memoryCache)
    {
      SetPathWellFormed(data, Split(key, "."), value);
      SetPathGet(data, Split(key, "."), value);
      data := SetPath(data, Split(key, "."), value);
      notices := notices + [DataNotice(data)];
      r := Stash();
    }

    /** `set(partial)`: `_.merge` of the partial data, then the data notice
        and a stash. The mirror does not change. */
    method SetData(partial: seq<Field>) returns (r: Outcome<()>)
      requires Valid() && FieldsWellFormed(partial)
      modifies this, store
      ensures Valid()
      ensures data == Merge(old(data), partial)
      ensures mirror == old(mirror) && status == old(status) && initialized == old(initialized)
      ensures deleted == old(deleted) && error == old(error) && options == old(options)
      ensures subscription == old(subscription) && selected == old(selected)
      ensures notices == old(notices) + [DataNotice(data)]
      ensures r == StashOutcome()
      ensures store.persistent == StashedTier(old(store.persistent), persistentCache)
      ensures store.memory == StashedTier(old(store.memory), memoryCache)
    {
      MergeWellFormed(data, partial);
      data := Merge(data, partial);
      notices := notices + [DataNotice(data)];
      r := Stash();
    }

    /** `assign(d)`: the mirror becomes a JSON copy of `d` and `d`'s keys
        are copied onto the data; keys of the data that `d` lacks stay, and
        nothing is left to save. */
    method Assign(d: seq<Field>)
      requires Valid() && WellFormed(Obj(d))
      modifies this, store
      ensures Valid()
      ensures mirror == CopyFields(d) && data == ShallowAssign(old(data), d)
      ensures status == old(status) && initialized == old(initialized)
      ensures deleted == old(deleted) && error == old(error) && options == old(options)
      ensures subscription == old(subscription) && selected == old(selected)
      ensures notices == old(notices) + [DataNotice(data)]
      ensures store.persistent == CachedTier(old(store.persistent))
      ensures store.memory == old(store.memory)
    {
      CopyFacts(d);
      ShallowAssignWellFormed(data, d);
      mirror := CopyFields(d);
      data := ShallowAssign(data, d);
      notices := notices + [DataNotice(data)];
      WriteCache();
    }

    /** After `assign(d)` the data agrees with `d` on `d`'s keys, so the
        diff from `d`'s JSON copy does not throw, and `hasChanges` is true
        exactly when a date is reached from `d` through object fields: its
        copy in the mirror is the date's ISO text, a string. */
    lemma AssignedHasChanges(m: seq<Field>, d: seq<Field>)
      requires WellFormed(Obj(d)) && mirror == CopyFields(d) && data == ShallowAssign(m, d)
      ensures HasChanges() == Returned(!FieldsNoDates(d))
    {
      forall k | k in KeysOf(d) ensures Get(data, k) == Get(d, k) {
        ShallowAssignGet(m, d, k);
      }
      DiffLemmas.DiffFromCopy(d, data);
    }

    /** With the mirror a JSON copy of the data, as after construction and
        a successful update call, `hasChanges` does not throw and is true
        exactly when a date is reached from the data through object
        fields. */
    lemma CopyHasChanges()
      requires WellFormed(Obj(data)) && mirror == CopyFields(data)
      ensures HasChanges() == Returned(!FieldsNoDates(data))
    {
      DiffLemmas.DiffFromCopy(data, data);
    }

    /** With the data equal to the mirror, as after `reset()`, nothing is
        left to save: the mirror, a JSON copy, holds no date. */
    lemma ResetIsClean()
      requires Valid() && data == mirror
      ensures HasChanges() == Returned(false)
    {
      CopyFieldsNoDates(mirror);
      CopyHasChanges();
    }

    /** `reset()`: the data becomes a JSON copy of the mirror, which is the
        mirror itself, so nothing is left to save. */
    method Reset()
      requires Valid()
      modifies this, store
      ensures Valid()
      ensures data == mirror && mirror == old(mirror)
      ensures status == old(status) && initialized == old(initialized)
      ensures deleted == old(deleted) && error == old(error) && options == old(options)
      ensures subscription == old(subscription) && selected == old(selected)
      ensures notices == old(notices) + [DataNotice(data)]
      ensures store.persistent == CachedTier(old(store.persistent))
      ensures store.memory == old(store.memory)
    {
      data := CopyFields(mirror);
      notices := notices + [DataNotice(data)];
      WriteCache();
    }

    /** `_applyCache(state)`: it acts once. While not yet initialized it
        assigns the cached data when that has a truthy id, and then marks
        the record initialized and ready. */
    method ApplyCache(cached: seq<Field>)
      requires Valid() && WellFormed(Obj(cached))
      modifies this, store
      ensures Valid()
      ensures old(initialized) ==>
                status == old(status) && mirror == old(mirror) && data == old(data) &&
                notices == old(notices) && store.persistent == old(store.persistent)
      ensures !old(initialized) ==> initialized && status == Ready
      ensures !old(initialized) && Truthy(Get(cached, "id")) ==>
                mirror == CopyFields(cached) && data == ShallowAssign(old(data), cached) &&
                notices == old(notices) + [DataNotice(data)] &&
                store.persistent == CachedTier(old(store.persistent))
      ensures !old(initialized) && !Truthy(Get(cached, "id")) ==>
                mirror == old(mirror) && data == old(data) && notices == old(notices) &&
                store.persistent == old(store.persistent)
      ensures initialized
      ensures deleted == old(deleted) && error == old(error) && options == old(options)
      ensures subscription == old(subscription) && selected == old(selected)
      ensures store.memory == old(store.memory)
    {
      if !initialized {
        if Truthy(Get(cached, "id")) {
          Assign(cached);
        }
        initialized := true;
        status := Ready;
      }
    }

    /** `_loadCaches()`: applies the persistent state at the record's path,
        then the memory state; only the first of them can act. */
    method LoadCaches()
      requires Valid()
      requires WellFormed(Obj(StateData(store.persistent, href)))
      requires WellFormed(Obj(StateData(store.memory, href)))
      modifies this, store
      ensures Valid()
      ensures old(initialized) || !(persistentCache || memoryCache) ==>
                status == old(status) && initialized == old(initialized) &&
                mirror == old(mirror) && data == old(data) && notices == old(notices) &&
                store.persistent == old(store.persistent)
      ensures !old(initialized) && (persistentCache || memoryCache) ==>
                var cached := if persistentCache then StateData(old(store.persistent), href)
                              else StateData(old(store.memory), href);
                initialized && status == Ready &&
                (Truthy(Get(cached, "id")) ==>
                   mirror == CopyFields(cached) && data == ShallowAssign(old(data), cached) &&
                   notices == old(notices) + [DataNotice(data)] &&
                   store.persistent == CachedTier(old(store.persistent))) &&
                (!Truthy(Get(cached, "id")) ==>
                   mirror == old(mirror) && data == old(data) && notices == old(notices) &&
                   store.persistent == old(store.persistent))
      ensures deleted == old(deleted) && error == old(error) && options == old(options)
      ensures subscription == old(subscription) && selected == old(selected)
      ensures store.memory == old(store.memory)
    {
      if persistentCache {
        ApplyCache(StateData(store.persistent, href));
      }
      if memoryCache {
        ApplyCache(StateData(store.memory, href));
      }
    }

    /** `unStash()`: merges the stashed changes of the persistent tier, then
        those of the memory tier, each with `set`; the first merge stashes
        again, so with both tiers on the second reads what it stashed. */
    method UnStash() returns (r: Outcome<()>)
      requires Valid()
      requires FieldsWellFormed(StateData(store.persistent, cref))
      requires FieldsWellFormed(StateData(store.memory, cref))
      modifies this, store
      ensures Valid()
      ensures mirror == old(mirror) && status == old(status) && initialized == old(initialized)
      ensures deleted == old(deleted) && error == old(error) && options == old(options)
      ensures subscription == old(subscription) && selected == old(selected)
      ensures !persistentCache && !memoryCache ==>
                r == Returned(()) && data == old(data) && notices == old(notices)
      ensures !(persistentCache && memoryCache) ==>
                store.persistent == StashedTier(old(store.persistent), persistentCache) &&
                store.memory == StashedTier(old(store.memory), memoryCache)
      ensures persistentCache && !memoryCache ==>
                data == Merge(old(data), StateData(old(store.persistent), cref)) &&
                notices == old(notices) + [DataNotice(data)] && r == StashOutcome()
      ensures !persistentCache && memoryCache ==>
                data == Merge(old(data), StateData(old(store.memory), cref)) &&
                notices == old(notices) + [DataNotice(data)] && r == StashOutcome()
      ensures persistentCache && memoryCache ==>
                var first := Merge(old(data), StateData(old(store.persistent), cref));
                var stashed := Diff(Obj(mirror), Obj(first), false);
                if stashed.Err? then
                  r == Threw(TYPE_ERROR) && data == first &&
                  notices == old(notices) + [DataNotice(first)] &&
                  store.persistent == old(store.persistent) && store.memory == old(store.memory)
                else
                  data == Merge(first, stashed.value.fields) &&
                  notices == old(notices) + [DataNotice(first), DataNotice(data)] &&
                  r == StashOutcome() &&
                  store.persistent == StashedTier(old(store.persistent)[cref := stashed.value.fields], true) &&
                  store.memory == StashedTier(old(store.memory)[cref := stashed.value.fields], true)
    {
      r := Returned(());
      if persistentCache {
        r := SetData(StateData(store.persistent, cref));
        if r.Threw? {
          return;
        }
      }
      if memoryCache {
        if persistentCache {
          DiffChangesWellFormed(mirror, data);
        }
        r := SetData(StateData(store.memory, cref));
      }
    }

    /** The changes a diff of two objects reports are well-formed fields. */
    static lemma DiffChangesWellFormed(m: seq<Field>, d: seq<Field>)
      requires WellFormed(Obj(m)) && WellFormed(Obj(d))
      requires Diff(Obj(m), Obj(d), false).Ok?
      ensures FieldsWellFormed(Diff(Obj(m), Obj(d), false).value.fields)
    {
      DiffLemmas.ObjectWalkWellFormed(m, d, false);
    }

    /** `option(key, value)`: `_.set` on the dotted path of the options. */
    method SetOption(key: string, value: Value)
      modifies this
      ensures options == SetPath(old(options), Split(key, "."), value)
      ensures GetPath(options, Split(key, ".")) == value
      ensures OptionsOnly()
    {
      SetPathGet(options, Split(key, "."), value);
      options := SetPath(options, Split(key, "."), value);
    }

    /** `option(options)`: the options are replaced. */
    method ReplaceOptions(newOptions: seq<Field>)
      modifies this
      ensures options == newOptions
      ensures OptionsOnly()
    {
      options := newOptions;
    }

    /** `params(key, value)`: `_.set` on `params.<key>` of the options. */
    method SetParam(key: string, value: Value)
      modifies this
      ensures options == SetPath(old(options), ["params"] + Split(key, "."), value)
      ensures GetPath(options, ["params"] + Split(key, ".")) == value
      ensures OptionsOnly()
    {
      SplitAvoiding("params", ".", key);
      assert "params." + key == "params" + "." + key;
      SetPathGet(options, ["params"] + Split(key, "."), value);
      options := SetPath(options, Split("params." + key, "."), value);
    }

    /** `params(params)`: the options' params are replaced. */
    method ReplaceParams(params: Value)
      modifies this
      ensures options == Put(old(options), "params", params)
      ensures Get(options, "params") == params
      ensures forall k :: k != "params" ==> Get(options, k) == Get(old(options), k)
      ensures OptionsOnly()
    {
      options := Put(options, "params", params);
    }

    /** `select(fields)`: the fields to fetch. */
    method Select(fields: Value)
      modifies this
      ensures options == Put(old(options), "fields", fields)
      ensures Get(options, "fields") == fields
      ensures forall k :: k != "fields" ==> Get(options, k) == Get(old(options), k)
      ensures OptionsOnly()
    {
      options := Put(options, "fields", fields);
    }

    /** `exclude(fields)`: the fields to leave out of fetches. */
    method Exclude(fields: Value)
      modifies this
      ensures options == Put(old(options), "excludeFields", fields)
      ensures Get(options, "excludeFields") == fields
      ensures forall k :: k != "excludeFields" ==> Get(options, k) == Get(old(options), k)
      ensures OptionsOnly()
    {
      options := Put(options, "excludeFields", fields);
    }

    /** Nothing but the options changed. */
    twostate predicate OptionsOnly()
      reads this
    {
      status == old(status) && initialized == old(initialized) && mirror == old(mirror) &&
      data == old(data) && deleted == old(deleted) && error == old(error) &&
      subscription == old(subscription) && selected == old(selected) && notices == old(notices)
    }

    /** The `catch` of `save` and `fetch`: the error is kept and announced,
        the status is announced as it stands, and the error is thrown on. */
    method Fail(e: string) returns (r: Outcome<()>)
      modifies this
      ensures r == Threw(e) && error == Some(e)
      ensures notices == old(notices) + [ErrorNotice(e), StatusNotice(status)]
      ensures status == old(status) && initialized == old(initialized) && mirror == old(mirror)
      ensures data == old(data) && deleted == old(deleted) && options == old(options)
      ensures subscription == old(subscription) && selected == old(selected)
    {
      error := Some(e);
      notices := notices + [ErrorNotice(e), StatusNotice(status)];
      r := Threw(e);
    }

    /** `save()`: with an id it pushes the changes (`SaveChanges`), without
        one it creates the record (`SaveNew`). `call` is what the awaited
        collection call resolved with or the error it rejected with: the
        update call for a record with an id, whose resolved data is not
        read, and the create call for one without. */
    method Save(call: Outcome<seq<Field>>) returns (r: Outcome<()>)
      requires Valid()
      requires id == "" && call.Returned? ==> WellFormed(Obj(call.value))
      modifies this, store
      ensures Valid()
      ensures initialized == old(initialized) && deleted == old(deleted) && options == old(options)
      ensures subscription == old(subscription) && selected == old(selected)
      ensures id != "" ==> ChangesSaved(call, r)
      ensures id == "" ==> CreationSaved(call, r)
    {
      if id != "" {
        r := SaveChanges(call);
      } else {
        r := SaveNew(call);
      }
    }

    /** The outcome of `save()` on a record with an id: status `sync`, a
        stash, the update call with the changes, then the data becomes the
        mirror. A failure leaves the status at `sync`. */
    twostate predicate ChangesSaved(call: Outcome<seq<Field>>, new r: Outcome<()>)
      reads this, store
    {
      (old(Changes()).Err? ==>
         r == Threw(TYPE_ERROR) && status == Sync && error == Some(TYPE_ERROR) &&
         mirror == old(mirror) && data == old(data) &&
         notices == old(notices) + [ErrorNotice(TYPE_ERROR), StatusNotice(Sync)] &&
         store.persistent == old(store.persistent) && store.memory == old(store.memory)) &&
      (old(Changes()).Ok? && call.Threw? ==>
         r == Threw(call.error) && status == Sync && error == Some(call.error) &&
         mirror == old(mirror) && data == old(data) &&
         notices == old(notices) + [ErrorNotice(call.error), StatusNotice(Sync)] &&
         store.persistent == old(StashedTier(store.persistent, persistentCache)) &&
         store.memory == old(StashedTier(store.memory, memoryCache))) &&
      (old(Changes()).Ok? && call.Returned? ==>
         r == Returned(()) && status == Ready && error == old(error) &&
         mirror == CopyFields(data) && data == old(data) &&
         notices == old(notices) + [StatusNotice(Ready)] &&
         store.persistent == CachedTier(old(StashedTier(store.persistent, persistentCache))) &&
         store.memory == old(StashedTier(store.memory, memoryCache)))
    }

    /** The outcome of `save()` on a record without an id: the create call,
        whose data is assigned. A failure leaves the status as it was. */
    twostate predicate CreationSaved(created: Outcome<seq<Field>>, new r: Outcome<()>)
      reads this, store
    {
      (created.Threw? ==>
         r == Threw(created.error) && status == old(status) && error == Some(created.error) &&
         mirror == old(mirror) && data == old(data) &&
         notices == old(notices) + [ErrorNotice(created.error), StatusNotice(old(status))] &&
         store.persistent == old(store.persistent) && store.memory == old(store.memory)) &&
      (created.Returned? ==>
         r == Returned(()) && status == Ready && error == old(error) &&
         mirror == CopyFields(created.value) &&
         data == ShallowAssign(old(data), created.value) &&
         notices == old(notices) + [DataNotice(data), StatusNotice(Ready)] &&
         store.persistent == CachedTier(old(store.persistent)) &&
         store.memory == old(store.memory))
    }

    /** The id branch of `save()`. */
    method SaveChanges(call: Outcome<seq<Field>>) returns (r: Outcome<()>)
      requires Valid() && id != ""
      modifies this, store
      ensures Valid()
      ensures initialized == old(initialized) && deleted == old(deleted) && options == old(options)
      ensures subscription == old(subscription) && selected == old(selected)
      ensures ChangesSaved(call, r)
    {
      status := Sync;
      var stashed := Stash();
      if stashed.Threw? {
        r := Fail(stashed.error);
        return;
      }
      var changes := Changes();
      if changes.Err? {
        r := Fail(TYPE_ERROR);
        return;
      }
      if call.Threw? {
        r := Fail(call.error);
        return;
      }
      Commit();
      r := Returned(());
    }

    /** The end of a successful update call: the mirror becomes a JSON copy
        of the data, the cache is written and the record is ready. */
    method Commit()
      requires Valid()
      modifies this, store
      ensures Valid()
      ensures status == Ready && mirror == CopyFields(data) && data == old(data)
      ensures notices == old(notices) + [StatusNotice(Ready)]
      ensures store.persistent == CachedTier(old(store.persistent)) && store.memory == old(store.memory)
      ensures initialized == old(initialized) && deleted == old(deleted) && error == old(error)
      ensures options == old(options) && subscription == old(subscription) && selected == old(selected)
    {
      CopyFacts(data);
      mirror := CopyFields(data);
      WriteCache();
      status := Ready;
      notices := notices + [StatusNotice(Ready)];
    }

    /** The branch of `save()` for a record without an id. */
    method SaveNew(created: Outcome<seq<Field>>) returns (r: Outcome<()>)
      requires Valid() && id == ""
      requires created.Returned? ==> WellFormed(Obj(created.value))
      modifies this, store
      ensures Valid()
      ensures initialized == old(initialized) && deleted == old(deleted) && options == old(options)
      ensures subscription == old(subscription) && selected == old(selected)
      ensures CreationSaved(created, r)
    {
      if created.Threw? {
        r := Fail(created.error);
        return;
      }
      Receive(created.value);
      r := Returned(());
    }

    /** The end of a successful create or find call: the data it resolved
        with is assigned and the record is ready. */
    method Receive(d: seq<Field>)
      requires Valid() && WellFormed(Obj(d))
      modifies this, store
      ensures Valid()
      ensures status == Ready && mirror == CopyFields(d) && data == ShallowAssign(old(data), d)
      ensures notices == old(notices) + [DataNotice(data), StatusNotice(Ready)]
      ensures store.persistent == CachedTier(old(store.persistent)) && store.memory == old(store.memory)
      ensures initialized == old(initialized) && deleted == old(deleted) && error == old(error)
      ensures options == old(options) && subscription == old(subscription) && selected == old(selected)
    {
      ghost var before := notices;
      Assign(d);
      Appended(before, [DataNotice(data)], [StatusNotice(Ready)]);
      status := Ready;
      notices := notices + [StatusNotice(Ready)];
    }

    /** `update(payload)`: `set(payload)`, then `save()`; a failure of
        either is thrown on. `call` is the outcome of the collection call
        `save()` awaits, as there. */
    method Update(payload: seq<Field>, call: Outcome<seq<Field>>) returns (r: Outcome<()>)
      requires Valid() && FieldsWellFormed(payload)
      requires id == "" && call.Returned? ==> WellFormed(Obj(call.value))
      modifies this, store
      ensures Valid()
      ensures initialized == old(initialized) && deleted == old(deleted) && options == old(options)
      ensures subscription == old(subscription) && selected == old(selected)
      ensures call.Threw? ==> r.Threw?
      ensures r.Threw? ==> mirror == old(mirror) && data == Merge(old(data), payload)
      ensures r.Returned? ==> status == Ready
      ensures r.Returned? && id != "" ==>
                data == Merge(old(data), payload) && mirror == CopyFields(data)
      ensures r.Returned? && id == "" ==>
                data == ShallowAssign(Merge(old(data), payload), call.value) &&
                mirror == CopyFields(call.value)
      ensures r.Returned? ==> error == old(error)
      ensures UpdateSetThrew(payload) ==>
                r == Threw(TYPE_ERROR) && status == old(status) && error == old(error) &&
                notices == old(notices) + [DataNotice(data)] &&
                store.persistent == old(store.persistent) && store.memory == old(store.memory)
      ensures !UpdateSetThrew(payload) && id != "" && r.Threw? ==>
                status == Sync && error == Some(r.error)
      ensures !UpdateSetThrew(payload) && id != "" ==>
                r == (if UpdateMergedFault(payload) then Threw(TYPE_ERROR)
                      else if call.Threw? then Threw(call.error) else Returned(()))
      ensures !UpdateSetThrew(payload) && id == "" ==>
                r == (if call.Threw? then Threw(call.error) else Returned(()))
      ensures !UpdateSetThrew(payload) && id == "" && call.Threw? ==>
                status == old(status) && error == Some(call.error)
    {
      r := SetData(payload);
      if r.Threw? {
        return;
      }
      r := Save(call);
    }

    /** The `set` inside `update(payload)` throws: a cache tier is on, so
        it stashes, and the changes of the merged data cannot be computed. */
    twostate predicate UpdateSetThrew(payload: seq<Field>)
      reads this
    {
      (persistentCache || memoryCache) && UpdateMergedFault(payload)
    }

    /** The changes of the merged data against the mirror cannot be computed. */
    twostate predicate UpdateMergedFault(payload: seq<Field>)
      reads this
    {
      Diff(Obj(old(mirror)), Obj(Merge(old(data), payload)), false).Err?
    }

    /** `delete()`: status `sync`, the delete call, then `ready` and marked
        deleted. A failure is thrown on with the status left at `sync`,
        no error kept and nothing announced. */
    method Delete(outcome: Outcome<()>) returns (r: Outcome<()>)
      modifies this
      ensures outcome.Threw? ==>
                r == Threw(outcome.error) && status == Sync && deleted == old(deleted) &&
                error == old(error) && notices == old(notices)
      ensures outcome.Returned? ==>
                r == Returned(()) && status == Ready && deleted && error == old(error) &&
                notices == old(notices) + [StatusNotice(Ready)]
      ensures initialized == old(initialized) && mirror == old(mirror) && data == old(data)
      ensures options == old(options) && subscription == old(subscription) && selected == old(selected)
    {
      status := Sync;
      if outcome.Threw? {
        return Threw(outcome.error);
      }
      status := Ready;
      deleted := true;
      notices := notices + [StatusNotice(Ready)];
      r := Returned(());
    }

    /** `fetch()`: status `sync` when ready and `init` otherwise, announced;
        then the find call, whose data is assigned and the record is ready.
        A failure keeps that interim status. */
    method Fetch(found: Outcome<seq<Field>>) returns (r: Outcome<()>)
      requires Valid()
      requires found.Returned? ==> WellFormed(Obj(found.value))
      modifies this, store
      ensures Valid()
      ensures initialized == old(initialized) && deleted == old(deleted) && options == old(options)
      ensures subscription == old(subscription) && selected == old(selected)
      ensures Fetched(found, r)
      ensures store.memory == old(store.memory)
    {
      ghost var before := notices;
      status := if status == Ready then Sync else Init;
      notices := notices + [StatusNotice(status)];
      if found.Threw? {
        r := Fail(found.error);
        Appended(before, [StatusNotice(status)], [ErrorNotice(found.error), StatusNotice(status)]);
        return;
      }
      ghost var interim := status;
      Receive(found.value);
      Appended(before, [StatusNotice(interim)], [DataNotice(data), StatusNotice(Ready)]);
      r := Returned(());
    }

    /** The outcome of `fetch()`: the interim status is announced, then
        either the error with that status again, or the found data, which
        is assigned, and the ready status. */
    twostate predicate Fetched(found: Outcome<seq<Field>>, new r: Outcome<()>)
      reads this, store
    {
      var interim := if old(status) == Ready then Sync else Init;
      (found.Threw? ==>
         r == Threw(found.error) && status == interim && error == Some(found.error) &&
         mirror == old(mirror) && data == old(data) &&
         notices == old(notices) + [StatusNotice(interim), ErrorNotice(found.error), StatusNotice(interim)] &&
         store.persistent == old(store.persistent)) &&
      (found.Returned? ==>
         r == Returned(()) && status == Ready && error == old(error) &&
         mirror == CopyFields(found.value) &&
         data == ShallowAssign(old(data), found.value) &&
         notices == old(notices) + [StatusNotice(interim), DataNotice(data), StatusNotice(Ready)] &&
         store.persistent == CachedTier(old(store.persistent)))
    }

    /** `subscribe()`: keeps the handle the subscribe call resolved with. */
    method Subscribe(handle: string)
      modifies this
      ensures subscription == Some(handle)
      ensures status == old(status) && initialized == old(initialized) && mirror == old(mirror)
      ensures data == old(data) && deleted == old(deleted) && error == old(error)
      ensures options == old(options) && selected == old(selected) && notices == old(notices)
    {
      subscription := Some(handle);
    }

    /** The handler `subscribe()` registers: a `delete` event marks the
        record deleted and announces its status; any other event fetches. */
    method OnEvent(eventType: string, found: Outcome<seq<Field>>) returns (r: Outcome<()>)
      requires Valid()
      requires found.Returned? ==> WellFormed(Obj(found.value))
      modifies this, store
      ensures Valid()
      ensures eventType == "delete" ==>
                r == Returned(()) && deleted && status == old(status) &&
                notices == old(notices) + [StatusNotice(status)] &&
                mirror == old(mirror) && data == old(data) && error == old(error) &&
                store.persistent == old(store.persistent)
      ensures eventType != "delete" ==> deleted == old(deleted) && Fetched(found, r)
      ensures initialized == old(initialized) && options == old(options)
      ensures subscription == old(subscription) && selected == old(selected)
      ensures store.memory == old(store.memory)
    {
      if eventType == "delete" {
        deleted := true;
        notices := notices + [StatusNotice(status)];
        r := Returned(());
      } else {
        r := Fetch(found);
      }
    }

    /** `unsubscribe()`: drops the subscription when there is one. */
    method Unsubscribe()
      modifies this
      ensures subscription == None
      ensures status == old(status) && initialized == old(initialized) && mirror == old(mirror)
      ensures data == old(data) && deleted == old(deleted) && error == old(error)
      ensures options == old(options) && selected == old(selected) && notices == old(notices)
    {
      if subscription.Some? {
        subscription := None;
      }
    }
  }

  lemma Appended<T>(s: seq<T>, a: seq<T>, b: seq<T>)
    ensures s + a + b == s + (a + b)
  {
  }

  /** `records.filter(rec => rec.selected)`. */
  function SelectedOf(rs: seq<MetalRecord>): (r: seq<MetalRecord>)
    reads rs
    ensures |r| <= |rs|
    ensures forall i :: 0 <= i < |r| ==> r[i] in rs && r[i].selected
    ensures forall i :: 0 <= i < |rs| && rs[i].selected ==> rs[i] in r
  {
    if |rs| == 0 then []
    else (if rs[0].selected then [rs[0]] else []) + SelectedOf(rs[1..])
  }

  /** Every record is kept by the filter exactly when all are selected, and
      at least one is kept exactly when one is selected. */
  lemma {:induction false} SelectedCount(rs: seq<MetalRecord>)
    ensures |SelectedOf(rs)| == |rs| <==> forall i :: 0 <= i < |rs| ==> rs[i].selected
    ensures |SelectedOf(rs)| >= 1 <==> exists i :: 0 <= i < |rs| && rs[i].selected
  {
    if |rs| > 0 {
      SelectedCount(rs[1..]);
      assert forall i :: 1 <= i < |rs| ==> rs[1..][i - 1] == rs[i];
      if exists i :: 0 <= i < |rs| && rs[i].selected {
        var i :| 0 <= i < |rs| && rs[i].selected;
        if i > 0 {
          assert rs[1..][i - 1].selected;
        }
      }
    }
  }

  class MetalRecordList {
    var records: seq<MetalRecord>

    constructor(items: seq<MetalRecord>)
      ensures records == items
    {
      records := items;
    }

    /** A list holds each record once. */
    ghost predicate Valid()
      reads this
    {
      forall i, j :: 0 <= i < j < |records| ==> records[i] != records[j]
    }

    /** The `selectedRecords` getter. */
    function SelectedRecords(): (r: seq<MetalRecord>)
      reads this, records
      ensures forall i :: 0 <= i < |r| ==> r[i] in records && r[i].selected
      ensures forall i :: 0 <= i < |records| && records[i].selected ==> records[i] in r
    {
      SelectedOf(records)
    }

    /** The `allRecordsSelected` getter: every record is selected (which
        an empty list is). */
    function AllRecordsSelected(): (r: bool)
      reads this, records
      ensures r <==> forall i :: 0 <= i < |records| ==> records[i].selected
    {
      SelectedCount(records);
      |SelectedRecords()| == |records|
    }

    /** The `fewRecordsSelected` getter: some records are selected, but not
        all. */
    function FewRecordsSelected(): (r: bool)
      reads this, records
      ensures r <==> (exists i :: 0 <= i < |records| && records[i].selected) &&
                     (exists i :: 0 <= i < |records| && !records[i].selected)
    {
      SelectedCount(records);
      1 <= |SelectedRecords()| < |records|
    }

    /** `selectAll()` (value true) and `deselectAll()` (value false): every
        record's flag is set and announced on it, then the first record's
        query is told once; on an empty list reading `this[0].query`
        throws. */
    method SetAllSelected(value: bool) returns (r: Outcome<()>)
      requires Valid()
      modifies records, if |records| > 0 then {records[0].query} else {}
      ensures forall i :: 0 <= i < |records| ==>
                records[i].selected == value &&
                records[i].notices == old(records[i].notices) + [SelectionNotice(value)] &&
                records[i].SelectionOnly()
      ensures |records| == 0 ==> r == Threw(TYPE_ERROR)
      ensures |records| > 0 ==> r == Returned(())
      ensures |records| > 0 && records[0].query != null ==>
                records[0].query.selectionEmits == old(records[0].query.selectionEmits) + 1
    {
      var i := 0;
      while i < |records|
        invariant 0 <= i <= |records|
        invariant forall j :: 0 <= j < i ==>
                    records[j].selected == value &&
                    records[j].notices == old(records[j].notices) + [SelectionNotice(value)] &&
                    records[j].SelectionOnly()
        invariant forall j :: i <= j < |records| ==> unchanged(records[j])
        invariant |records| > 0 && records[0].query != null ==>
                    records[0].query.selectionEmits == old(records[0].query.selectionEmits)
      {
        records[i].Mark(value);
        i := i + 1;
      }
      if |records| == 0 {
        return Threw(TYPE_ERROR);
      }
      var first := records[0];
      if first.query != null {
        first.query.selectionEmits := first.query.selectionEmits + 1;
      }
      r := Returned(());
    }
  }
}
