/**
 * The event emitter of src/event.ts: an ordered list of anonymous listeners
 * without duplicates, and a map from names to handlers that keeps insertion
 * order (the order `Object.entries` lists it in for non-numeric names).
 */
module Events {
  import opened JsValues

  /** An event handler, known by its identity. */
  datatype Handler = Handler(id: nat)

  /** One entry of `_subscribers`. */
  datatype Subscriber = Subscriber(name: string, handler: Handler)

  /** The first argument of `subscribe` and `unsubscribe`: a name or a
      handler. */
  datatype Target = Name(name: string) | Fn(handler: Handler)

  predicate NoDuplicates(s: seq<Handler>) {
    forall i, j :: 0 <= i < j < |s| ==> s[i] != s[j]
  }

  function Names(subs: seq<Subscriber>): (r: seq<string>)
    ensures |r| == |subs| && forall i :: 0 <= i < |subs| ==> r[i] == subs[i].name
  {
    if |subs| == 0 then [] else [subs[0].name] + Names(subs[1..])
  }

  predicate DistinctNames(subs: seq<Subscriber>) {
    forall i, j :: 0 <= i < j < |subs| ==> subs[i].name != subs[j].name
  }

  /** The handlers of the subscribers, in entry order. */
  function HandlersOf(subs: seq<Subscriber>): (r: seq<Handler>)
    ensures |r| == |subs| && forall i :: 0 <= i < |subs| ==> r[i] == subs[i].handler
  {
    if |subs| == 0 then [] else [subs[0].handler] + HandlersOf(subs[1..])
  }

  /** `_subscribers[name]`. */
  function Lookup(subs: seq<Subscriber>, name: string): Option<Handler> {
    if |subs| == 0 then None
    else if subs[0].name == name then Some(subs[0].handler)
    else Lookup(subs[1..], name)
  }

  /** `_subscribers[name] = h`: an existing name keeps its place and gets the
      new handler, a new name goes last. */
  function SetSubscriber(subs: seq<Subscriber>, name: string, h: Handler): seq<Subscriber> {
    if |subs| == 0 then [Subscriber(name, h)]
    else if subs[0].name == name then [Subscriber(name, h)] + subs[1..]
    else [subs[0]] + SetSubscriber(subs[1..], name, h)
  }

  /** `delete _subscribers[name]`. */
  function RemoveSubscriber(subs: seq<Subscriber>, name: string): seq<Subscriber> {
    if |subs| == 0 then []
    else if subs[0].name == name then RemoveSubscriber(subs[1..], name)
    else [subs[0]] + RemoveSubscriber(subs[1..], name)
  }

  lemma NamesCons(s: Subscriber, subs: seq<Subscriber>)
    ensures Names([s] + subs) == [s.name] + Names(subs)
  {
    assert ([s] + subs)[1..] == subs;
  }

  /** Setting a name keeps an existing name's place and appends a new one. */
  lemma {:induction false} SetSubscriberNames(subs: seq<Subscriber>, name: string, h: Handler)
    ensures Names(SetSubscriber(subs, name, h)) ==
              if name in Names(subs) then Names(subs) else Names(subs) + [name]
    decreases |subs|
  {
    if |subs| > 0 {
      assert subs == [subs[0]] + subs[1..];
      NamesCons(subs[0], subs[1..]);
      if subs[0].name == name {
        NamesCons(Subscriber(name, h), subs[1..]);
      } else {
        SetSubscriberNames(subs[1..], name, h);
        NamesCons(subs[0], SetSubscriber(subs[1..], name, h));
        assert name in Names(subs) <==> name in Names(subs[1..]);
      }
    }
  }

  /** After setting a name, it looks up the new handler and every other
      name looks up what it did before. */
  lemma {:induction false} SetSubscriberLookup(subs: seq<Subscriber>, name: string, h: Handler)
    ensures Lookup(SetSubscriber(subs, name, h), name) == Some(h)
    ensures forall n :: n != name ==> Lookup(SetSubscriber(subs, name, h), n) == Lookup(subs, n)
    decreases |subs|
  {
    if |subs| > 0 && subs[0].name != name {
      SetSubscriberLookup(subs[1..], name, h);
      var r := SetSubscriber(subs, name, h);
      assert r[0] == subs[0] && r[1..] == SetSubscriber(subs[1..], name, h);
    }
  }

  /** Names stay distinct when one is set. */
  lemma SetSubscriberDistinct(subs: seq<Subscriber>, name: string, h: Handler)
    requires DistinctNames(subs)
    ensures DistinctNames(SetSubscriber(subs, name, h))
  {
    var r := SetSubscriber(subs, name, h);
    SetSubscriberNames(subs, name, h);
    var ns := Names(r);
    forall i, j | 0 <= i < j < |r| ensures r[i].name != r[j].name {
      assert ns[i] == r[i].name && ns[j] == r[j].name;
      if j < |subs| {
        assert ns[i] == Names(subs)[i] && ns[j] == Names(subs)[j];
      } else {
        assert ns[j] == name && name !in Names(subs);
        assert ns[i] == Names(subs)[i];
      }
    }
  }

  /** After deleting a name it looks up nothing, and every other name looks
      up what it did before. */
  lemma {:induction false} RemoveSubscriberLookup(subs: seq<Subscriber>, name: string)
    ensures Lookup(RemoveSubscriber(subs, name), name) == None
    ensures forall n :: n != name ==> Lookup(RemoveSubscriber(subs, name), n) == Lookup(subs, n)
    decreases |subs|
  {
    if |subs| > 0 {
      RemoveSubscriberLookup(subs[1..], name);
      if subs[0].name != name {
        var r := RemoveSubscriber(subs, name);
        assert r[0] == subs[0] && r[1..] == RemoveSubscriber(subs[1..], name);
      }
    }
  }

  /** Deleting a name removes exactly that name. */
  lemma {:induction false} RemoveSubscriberNames(subs: seq<Subscriber>, name: string)
    ensures forall n :: n in Names(RemoveSubscriber(subs, name)) <==> n in Names(subs) && n != name
    decreases |subs|
  {
    if |subs| > 0 {
      RemoveSubscriberNames(subs[1..], name);
      NamesCons(subs[0], subs[1..]);
      assert subs == [subs[0]] + subs[1..];
      if subs[0].name != name {
        NamesCons(subs[0], RemoveSubscriber(subs[1..], name));
      }
    }
  }

  /** Names stay distinct when one is deleted. */
  lemma {:induction false} RemoveSubscriberDistinct(subs: seq<Subscriber>, name: string)
    requires DistinctNames(subs)
    ensures DistinctNames(RemoveSubscriber(subs, name))
    decreases |subs|
  {
    if |subs| > 0 {
      var rest := RemoveSubscriber(subs[1..], name);
      RemoveSubscriberDistinct(subs[1..], name);
      if subs[0].name != name {
        RemoveSubscriberNames(subs[1..], name);
        NamesCons(subs[0], subs[1..]);
        var r := [subs[0]] + rest;
        forall i, j | 0 <= i < j < |r| ensures r[i].name != r[j].name {
          if i == 0 {
            assert r[j] == rest[j - 1];
            assert Names(rest)[j - 1] == rest[j - 1].name;
            assert rest[j - 1].name in Names(subs[1..]);
            var k :| 0 <= k < |subs| - 1 && Names(subs[1..])[k] == rest[j - 1].name;
            assert subs[1..][k] == subs[k + 1];
          } else {
            assert r[i] == rest[i - 1] && r[j] == rest[j - 1];
          }
        }
      }
    }
  }

  lemma HandlersOfSnoc(subs: seq<Subscriber>, j: nat)
    requires j < |subs|
    ensures HandlersOf(subs[..j + 1]) == HandlersOf(subs[..j]) + [subs[j].handler]
  {
    var a := HandlersOf(subs[..j + 1]);
    var b := HandlersOf(subs[..j]) + [subs[j].handler];
    forall i | 0 <= i < |a| ensures a[i] == b[i] {
      assert subs[..j + 1][i] == subs[i];
      if i < j { assert subs[..j][i] == subs[i]; }
    }
  }

  /** `indexOf`: the first position of `h`, or -1. */
  function IndexOf(s: seq<Handler>, h: Handler): (r: int)
    ensures -1 <= r < |s|
    ensures r == -1 <==> h !in s
    ensures r >= 0 ==> s[r] == h && h !in s[..r]
  {
    if |s| == 0 then -1
    else if s[0] == h then 0
    else var k := IndexOf(s[1..], h); if k < 0 then -1 else k + 1
  }

  /** `s.splice(i, 1)`, where a negative start counts from the end. */
  function SpliceOne(s: seq<Handler>, i: int): (r: seq<Handler>)
    requires -1 <= i < |s|
  {
    if i >= 0 then s[..i] + s[i + 1..]
    else if |s| > 0 then s[..|s| - 1]
    else s
  }

  /** The listener list after `subscribe(fn)`: `fn` is appended unless it
      is already listed. */
  function AddListener(s: seq<Handler>, h: Handler): (r: seq<Handler>)
    ensures h in r && |s| <= |r| && r[..|s|] == s
    ensures forall g :: g in r <==> g in s || g == h
    ensures NoDuplicates(s) ==> NoDuplicates(r)
  {
    if h in s then s else s + [h]
  }

  /** The handlers one `emit` invokes, in order: every listener, then every
      named subscriber in entry order. */
  function Emitted(listeners: seq<Handler>, subs: seq<Subscriber>): (r: seq<Handler>)
    ensures |r| == |listeners| + |subs|
    ensures r[..|listeners|] == listeners
    ensures forall i :: 0 <= i < |subs| ==> r[|listeners| + i] == subs[i].handler
  {
    listeners + HandlersOf(subs)
  }

  class EventEmitter {
    var listeners: seq<Handler>
    var subscribers: seq<Subscriber>

    ghost predicate Valid()
      reads this
    {
      NoDuplicates(listeners) && DistinctNames(subscribers)
    }

    constructor ()
      ensures Valid() && listeners == [] && subscribers == []
    {
      listeners := [];
      subscribers := [];
    }

    /** `emit(event)`: the handlers invoked with the event, in the order
        they are invoked: every listener in list order, then every named
        subscriber in entry order. */
    method Emit() returns (calls: seq<Handler>)
      ensures calls == Emitted(listeners, subscribers)
    {
      calls := [];
      for i := 0 to |listeners|
        invariant calls == listeners[..i]
      {
        calls := calls + [listeners[i]];
      }
      assert listeners[..|listeners|] == listeners;
      for j := 0 to |subscribers|
        invariant calls == listeners + HandlersOf(subscribers[..j])
      {
        HandlersOfSnoc(subscribers, j);
        calls := calls + [subscribers[j].handler];
      }
      assert subscribers[..|subscribers|] == subscribers;
    }

    /** `subscribe(nameHandler, handler?)`: a name with a handler sets that
        name's entry; a handler alone is appended unless already listed;
        anything else changes nothing. The result stands for the returned
        closure, which calls `unsubscribe` with the same argument. */
    method Subscribe(target: Target, handler: Option<Handler>) returns (unsubscribe: Target)
      requires Valid()
      modifies this
      ensures Valid() && unsubscribe == target
      ensures target.Name? && handler.Some? ==>
                subscribers == SetSubscriber(old(subscribers), target.name, handler.value) &&
                listeners == old(listeners)
      ensures target.Fn? ==>
                listeners == AddListener(old(listeners), target.handler) &&
                subscribers == old(subscribers)
      ensures target.Name? && handler.None? ==> listeners == old(listeners) && subscribers == old(subscribers)
    {
      unsubscribe := target;
      match target
      case Name(n) =>
        if handler.Some? {
          SetSubscriberDistinct(subscribers, n, handler.value);
          subscribers := SetSubscriber(subscribers, n, handler.value);
        }
      case Fn(h) =>
        if h !in listeners {
          listeners := listeners + [h];
        }
    }

    /** `unsubscribe(nameHandler)`: a name deletes that entry; a handler is
        spliced out at its `indexOf`, which for an absent handler is -1 and
        removes the LAST listener. */
    method Unsubscribe(target: Target)
      requires Valid()
      modifies this
      ensures Valid()
      ensures target.Name? ==>
                subscribers == RemoveSubscriber(old(subscribers), target.name) && listeners == old(listeners)
      ensures target.Fn? ==>
                listeners == SpliceOne(old(listeners), IndexOf(old(listeners), target.handler)) &&
                subscribers == old(subscribers)
    {
      match target
      case Name(n) =>
        RemoveSubscriberDistinct(subscribers, n);
        subscribers := RemoveSubscriber(subscribers, n);
      case Fn(h) =>
        var i := IndexOf(listeners, h);
        SpliceKeepsNoDuplicates(listeners, i);
        listeners := SpliceOne(listeners, i);
    }

    /** `kick()`: both registries are emptied. */
    method Kick()
      modifies this
      ensures Valid() && listeners == [] && subscribers == []
    {
      listeners := [];
      subscribers := [];
    }
  }

  lemma SpliceKeepsNoDuplicates(s: seq<Handler>, i: int)
    requires -1 <= i < |s| && NoDuplicates(s)
    ensures NoDuplicates(SpliceOne(s, i))
    ensures forall h :: h in SpliceOne(s, i) ==> h in s
  {
    var r := SpliceOne(s, i);
    if i >= 0 {
      forall a, b | 0 <= a < b < |r| ensures r[a] != r[b] {
        var a' := if a < i then a else a + 1;
        var b' := if b < i then b else b + 1;
        assert r[a] == s[a'] && r[b] == s[b'];
      }
    }
  }

  /** Unsubscribing a handler that subscribing just added restores the
      listener list. */
  lemma {:induction false} SubscribeThenUnsubscribe(s: seq<Handler>, h: Handler)
    requires h !in s
    ensures SpliceOne(s + [h], IndexOf(s + [h], h)) == s
  {
    var t := s + [h];
    var k := IndexOf(t, h);
    assert t[|s|] == h;
    assert h !in t[..|s|];
    assert t[..|s|] == s;
  }

  /** Unsubscribing a listed handler removes exactly that handler. */
  lemma UnsubscribeRemovesHandler(s: seq<Handler>, h: Handler)
    requires NoDuplicates(s) && h in s
    ensures h !in SpliceOne(s, IndexOf(s, h))
    ensures |SpliceOne(s, IndexOf(s, h))| == |s| - 1
    ensures forall g :: g != h ==> (g in SpliceOne(s, IndexOf(s, h)) <==> g in s)
  {
    var i := IndexOf(s, h);
    var r := SpliceOne(s, i);
    assert r == s[..i] + s[i + 1..];
    forall g | g in s && g != h ensures g in r {
      var j :| 0 <= j < |s| && s[j] == g;
      if j < i { assert r[j] == g; } else { assert j > i; assert r[j - 1] == g; }
    }
    assert h !in s[i + 1..] by {
      forall j | i + 1 <= j < |s| ensures s[j] != h { assert s[i] == h; }
    }
  }

  /** Unsubscribing a handler that is not listed removes the last listener
      instead. */
  lemma UnsubscribeAbsentRemovesLast(s: seq<Handler>, h: Handler)
    requires h !in s && |s| > 0
    ensures SpliceOne(s, IndexOf(s, h)) == s[..|s| - 1]
  {
  }

  /** Setting a fresh name and deleting it again restores the entries. */
  lemma {:induction false} SetThenRemoveSubscriber(subs: seq<Subscriber>, name: string, h: Handler)
    requires name !in Names(subs)
    ensures RemoveSubscriber(SetSubscriber(subs, name, h), name) == subs
    decreases |subs|
  {
    if |subs| > 0 {
      assert Names(subs[1..]) == Names(subs)[1..];
      SetThenRemoveSubscriber(subs[1..], name, h);
      var r := SetSubscriber(subs, name, h);
      assert r == [subs[0]] + SetSubscriber(subs[1..], name, h);
      assert r[1..] == SetSubscriber(subs[1..], name, h);
    }
  }

  /** After `subscribe(fn)`, however often it is repeated, the listener
      part of the next `emit` calls `fn` exactly once. */
  lemma ListenerCalledOnce(s: seq<Handler>, subs: seq<Subscriber>, h: Handler)
    requires NoDuplicates(s)
    ensures AddListener(AddListener(s, h), h) == AddListener(s, h)
    ensures var n := |AddListener(s, h)|;
            var calls := Emitted(AddListener(s, h), subs);
            h in calls[..n] && forall i, j :: 0 <= i < j < n && calls[i] == h ==> calls[j] != h
  {
    var r := AddListener(s, h);
    assert Emitted(r, subs)[..|r|] == r;
  }
}
