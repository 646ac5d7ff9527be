/** The file watcher's routing indices and watch bookkeeping (file_watcher.rs).

The three routing indices are redundant: together they stand for one map from subscriber key to path,
the `Table`. `WatcherState` holds the indices and updates them in place; its methods are the sections
that the source runs under the state lock. */
module FileWatcher {
  import opened Text
  import opened Collections

  type Path = string

  datatype Key = Key(workspace: string, path: string)

  // ---------- The table that the indices stand for ----------

  type Table = map<Key, Path>

  function KeysAt(t: Table, p: Path): set<Key> {
    set k | k in t && t[k] == p
  }

  function KeysOf(t: Table, w: string): set<Key> {
    set k | k in t && k.workspace == w
  }

  function Without(t: Table, w: string): Table {
    map k | k in t && k.workspace != w :: t[k]
  }

  function Subscribed(t: Table): set<Path> {
    set k | k in t :: t[k]
  }

  /** Registering replaces the slice of one workspace. */
  function Registered(t: Table, w: string, desired: Table): Table {
    Without(t, w) + desired
  }

  predicate ForWorkspace(w: string, desired: Table) {
    forall k :: k in desired ==> k.workspace == w
  }

  // ---------- The indices ----------

  datatype Indices = Indices(
    subscribers: map<Path, set<Key>>,
    keyPaths: Table,
    workspaceKeys: map<string, set<Key>>)

  /** `subscribers` is the inverse of the table, with no empty sets. */
  ghost predicate Routed(subscribers: map<Path, set<Key>>, t: Table) {
    && subscribers.Keys == Subscribed(t)
    && forall p :: p in subscribers ==> subscribers[p] == KeysAt(t, p)
  }

  /** The three indices agree with each other. A workspace may be listed with no keys, never the reverse. */
  ghost predicate Consistent(s: Indices) {
    && Routed(s.subscribers, s.keyPaths)
    && (forall w :: w in s.workspaceKeys ==> s.workspaceKeys[w] == KeysOf(s.keyPaths, w))
    && (forall k :: k in s.keyPaths ==> k.workspace in s.workspaceKeys)
  }

  /** Consistent indices are determined by the table and the listed workspaces. */
  ghost function IndicesOf(t: Table, workspaces: set<string>): Indices {
    Indices(map p | p in Subscribed(t) :: KeysAt(t, p), t, map w | w in workspaces :: KeysOf(t, w))
  }

  lemma ConsistentIsIndicesOf(s: Indices)
    ensures Consistent(s) <==>
              && s == IndicesOf(s.keyPaths, s.workspaceKeys.Keys)
              && forall k :: k in s.keyPaths ==> k.workspace in s.workspaceKeys
  {
  }

  /** No path is listed without a subscriber, and every key is found again under its path. */
  lemma IndicesMutuallyInverse(s: Indices)
    requires Consistent(s)
    ensures forall p :: p in s.subscribers ==> s.subscribers[p] != {}
    ensures forall k, p :: (p in s.subscribers && k in s.subscribers[p]) <==> (k in s.keyPaths && s.keyPaths[k] == p)
    ensures forall k, w :: (w in s.workspaceKeys && k in s.workspaceKeys[w]) <==> (k in s.keyPaths && k.workspace == w)
  {
    forall p | p in s.subscribers
      ensures s.subscribers[p] != {}
    {
      var k :| k in s.keyPaths && s.keyPaths[k] == p;
      assert k in s.subscribers[p];
    }
  }

  // ---------- One key at a time ----------

  function Unsubscribed(subscribers: map<Path, set<Key>>, p: Path, k: Key): map<Path, set<Key>>
    requires p in subscribers
  {
    var rest := subscribers[p] - {k};
    if rest == {} then subscribers - {p} else subscribers[p := rest]
  }

  function WithSubscriber(subscribers: map<Path, set<Key>>, p: Path, k: Key): map<Path, set<Key>> {
    subscribers[p := (if p in subscribers then subscribers[p] else {}) + {k}]
  }

  lemma UnsubscribedRouted(subscribers: map<Path, set<Key>>, t: Table, k: Key)
    requires Routed(subscribers, t) && k in t
    ensures Routed(Unsubscribed(subscribers, t[k], k), t - {k})
  {
    var p, t' := t[k], t - {k};
    var rest := subscribers[p] - {k};
    assert rest == KeysAt(t', p);
    forall q | q != p
      ensures KeysAt(t', q) == KeysAt(t, q)
    {
    }
    if rest == {} {
      assert p !in Subscribed(t') by {
        assert forall j :: j in t' && t'[j] == p ==> j in KeysAt(t', p);
      }
    } else {
      var j :| j in rest;
      assert t'[j] == p;
    }
    forall q | q != p
      ensures q in Subscribed(t') <==> q in Subscribed(t)
    {
      if q in Subscribed(t) {
        var j :| j in t && t[j] == q;
        assert t'[j] == q;
      }
    }
  }

  lemma WithSubscriberRouted(subscribers: map<Path, set<Key>>, t: Table, k: Key, p: Path)
    requires Routed(subscribers, t) && (k in t ==> t[k] == p)
    ensures Routed(WithSubscriber(subscribers, p, k), t[k := p])
  {
    var t' := t[k := p];
    assert t'[k] == p;
    forall q
      ensures q in Subscribed(t') <==> q in Subscribed(t) || q == p
    {
      if q in Subscribed(t) {
        var j :| j in t && t[j] == q;
        assert t'[j] == q;
      }
    }
    assert KeysAt(t', p) == KeysAt(t, p) + {k};
    forall q | q != p
      ensures KeysAt(t', q) == KeysAt(t, q)
    {
    }
    assert p !in subscribers ==> KeysAt(t, p) == {} by {
      assert forall j :: j in KeysAt(t, p) ==> t[j] in Subscribed(t);
    }
  }

  function Push(s: seq<Path>, p: Path): (r: seq<Path>)
    ensures Elements(r) == Elements(s) + {p}
  {
    s + [p]
  }

  // ---------- The sections under the state lock ----------

  /** The indices after the state-lock section of `register`. */
  ghost function RegisteredIndices(s: Indices, w: string, desired: Table): Indices {
    IndicesOf(Registered(s.keyPaths, w, desired), s.workspaceKeys.Keys + {w})
  }

  /** The indices after the state-lock section of `unregister_workspace`. */
  ghost function UnregisteredIndices(s: Indices, w: string): Indices {
    IndicesOf(Without(s.keyPaths, w), s.workspaceKeys.Keys - {w})
  }

  lemma AddOne(t: Table, desired: Table, todo: set<Key>, key: Key)
    requires key in todo && todo <= desired.Keys
    ensures var t' := t + (desired - todo);
            && t + (desired - (todo - {key})) == t'[key := desired[key]]
            && (key in t' ==> key in t && t'[key] == t[key])
  {
  }

  lemma ReplaceSlice(t: Table, w: string, desired: Table)
    requires ForWorkspace(w, desired)
    ensures t - (KeysOf(t, w) - desired.Keys) + desired == Registered(t, w, desired)
  {
  }

  class WatcherState {
    var subscribers: map<Path, set<Key>>
    var keyPaths: map<Key, Path>
    var workspaceKeys: map<string, set<Key>>
    var osWatched: set<Path>

    ghost function View(): Indices
      reads this
    {
      Indices(subscribers, keyPaths, workspaceKeys)
    }

    constructor ()
      ensures View() == IndicesOf(map[], {}) && Consistent(View()) && osWatched == {}
    {
      subscribers, keyPaths, workspaceKeys, osWatched := map[], map[], map[], {};
    }

    /** Take `key` off the subscribers of `path`; a path without subscribers is dropped. */
    method DropSubscriber(key: Key, path: Path) returns (freed: bool)
      requires path in subscribers
      modifies this`subscribers
      ensures subscribers == Unsubscribed(old(subscribers), path, key)
      ensures freed <==> path !in subscribers
    {
      var rest := subscribers[path] - {key};
      subscribers := subscribers[path := rest];
      if rest == {} {
        subscribers := subscribers - {path};
      }
      freed := rest == {};
      assert old(subscribers)[path := rest] - {path} == old(subscribers) - {path};
    }

    /** Drop `keys` from both indices, in any order; returns the paths that lost their last subscriber. */
    method DropKeys(keys: set<Key>) returns (freed: seq<Path>)
      requires Routed(subscribers, keyPaths)
      modifies this`subscribers, this`keyPaths
      ensures Routed(subscribers, keyPaths) && keyPaths == old(keyPaths) - keys
      ensures forall p :: p in freed <==> p in old(subscribers) && p !in subscribers
    {
      freed := [];
      var todo := keys;
      while todo != {}
        invariant todo <= keys
        invariant Routed(subscribers, keyPaths) && keyPaths == old(keyPaths) - (keys - todo)
        invariant forall p :: p in freed <==> p in old(subscribers) && p !in subscribers
        decreases todo
      {
        var key :| key in todo;
        todo := todo - {key};
        assert old(keyPaths) - (keys - todo) == keyPaths - {key};
        if key in keyPaths {
          var path := keyPaths[key];
          UnsubscribedRouted(subscribers, keyPaths, key);
          keyPaths := keyPaths - {key};
          assert path in subscribers;
          var last := DropSubscriber(key, path);
          if last {
            freed := freed + [path];
          }
        }
      }
      assert keys - {} == keys;
    }

    /** Subscribe `key` to `path`, leaving the path it had before; returns that path if nobody else wants it. */
    method AddKey(key: Key, path: Path) returns (freed: Option<Path>)
      requires Routed(subscribers, keyPaths)
      modifies this`subscribers, this`keyPaths
      ensures Routed(subscribers, keyPaths) && keyPaths == old(keyPaths)[key := path]
      ensures freed.Some? ==> key in old(keyPaths) && freed.value == old(keyPaths)[key]
      ensures old(subscribers).Keys - subscribers.Keys <= if freed.Some? then {freed.value} else {}
    {
      freed := None;
      ghost var table := keyPaths;
      if key in keyPaths && keyPaths[key] != path {
        var prior := keyPaths[key];
        UnsubscribedRouted(subscribers, keyPaths, key);
        assert prior in subscribers;
        var last := DropSubscriber(key, prior);
        if last {
          freed := Some(prior);
        }
        table := table - {key};
      }
      WithSubscriberRouted(subscribers, table, key, path);
      subscribers := WithSubscriber(subscribers, path, key);
      assert table[key := path] == keyPaths[key := path];
      keyPaths := keyPaths[key := path];
    }

    /** Subscribe `desired`, in any order. */
    method AddKeys(desired: Table) returns (freed: seq<Path>)
      requires Routed(subscribers, keyPaths)
      modifies this`subscribers, this`keyPaths
      ensures Routed(subscribers, keyPaths) && keyPaths == old(keyPaths) + desired
      ensures old(subscribers).Keys - subscribers.Keys <= Elements(freed) <= old(subscribers).Keys
    {
      freed := [];
      ghost var subs0, table0 := subscribers, keyPaths;
      var todo := desired.Keys;
      while todo != {}
        invariant todo <= desired.Keys
        invariant Routed(subscribers, keyPaths)
        invariant keyPaths == table0 + (desired - todo)
        invariant subs0.Keys - subscribers.Keys <= Elements(freed) <= subs0.Keys
        decreases todo
      {
        var key :| key in todo;
        AddOne(table0, desired, todo, key);
        todo := todo - {key};
        ghost var before := subscribers.Keys;
        var last := AddKey(key, desired[key]);
        assert subs0.Keys - subscribers.Keys <= (subs0.Keys - before) + (before - subscribers.Keys);
        if last.Some? {
          freed := Push(freed, last.value);
        }
      }
    }

    /** The state-lock section of `register`. */
    method RegisterSection(w: string, desired: Table) returns (toTryWatch: seq<Path>, toRemove: seq<Path>)
      requires Consistent(View()) && ForWorkspace(w, desired)
      modifies this`subscribers, this`keyPaths, this`workspaceKeys
      ensures View() == RegisteredIndices(old(View()), w, desired) && Consistent(View())
      ensures forall p :: p in toTryWatch <==> p in desired.Values && p !in osWatched
      ensures forall p :: p in toRemove <==> p in old(subscribers) && p !in subscribers
    {
      ghost var before := View();
      var priorKeys := if w in workspaceKeys then workspaceKeys[w] else {};
      workspaceKeys := workspaceKeys - {w};
      assert priorKeys == KeysOf(keyPaths, w);
      var staleKeys := priorKeys - desired.Keys;
      var pathsFreed := DropKeys(staleKeys);
      var moved := AddKeys(desired);
      workspaceKeys := workspaceKeys[w := desired.Keys];
      ReplaceSlice(before.keyPaths, w, desired);
      RegisteredConsistent(before, w, desired, View());
      toTryWatch := NotWatched(desired, osWatched);
      toRemove := StillGone(pathsFreed + moved, subscribers);
      assert forall p :: p in Elements(moved) <==> p in moved;
    }

    /** The state-lock section of `unregister_workspace`. */
    method UnregisterSection(w: string) returns (freed: seq<Path>)
      requires Consistent(View())
      modifies this`subscribers, this`keyPaths, this`workspaceKeys
      ensures View() == UnregisteredIndices(old(View()), w) && Consistent(View())
      ensures forall p :: p in freed <==> p in old(subscribers) && p !in subscribers
    {
      var keys := if w in workspaceKeys then workspaceKeys[w] else {};
      workspaceKeys := workspaceKeys - {w};
      assert keys == KeysOf(keyPaths, w);
      freed := DropKeys(keys);
      assert keyPaths == Without(old(keyPaths), w);
      UnregisteredConsistent(old(View()), w, View());
    }

    /** The routing of one file-system event: each subscriber of a looked-up path, once. */
    method Route(lookupPaths: seq<Path>) returns (calls: seq<Key>)
      requires Consistent(View())
      ensures forall k :: k in calls <==> k in keyPaths && keyPaths[k] in lookupPaths
      ensures forall i, j :: 0 <= i < j < |calls| ==> calls[i] != calls[j]
    {
      var fired: set<Key> := {};
      for i := 0 to |lookupPaths|
        invariant forall k :: k in fired <==> k in keyPaths && keyPaths[k] in lookupPaths[..i]
      {
        var path := lookupPaths[i];
        assert lookupPaths[..i + 1] == lookupPaths[..i] + [path];
        if path in subscribers {
          fired := fired + subscribers[path];
        }
      }
      assert lookupPaths[..|lookupPaths|] == lookupPaths;
      calls := [];
      ghost var all := fired;
      while fired != {}
        invariant fired <= all
        invariant forall k :: k in calls <==> k in all && k !in fired
        invariant forall i, j :: 0 <= i < j < |calls| ==> calls[i] != calls[j]
        decreases fired
      {
        var k :| k in fired;
        calls := calls + [k];
        fired := fired - {k};
      }
    }
  }

  /** The freed paths that no key has picked up again. */
  method StillGone(freed: seq<Path>, subscribers: map<Path, set<Key>>) returns (r: seq<Path>)
    ensures forall p :: p in r <==> p in freed && p !in subscribers
  {
    r := [];
    for i := 0 to |freed|
      invariant forall p :: p in r <==> p in freed[..i] && p !in subscribers
    {
      assert freed[..i + 1] == freed[..i] + [freed[i]];
      if freed[i] !in subscribers {
        r := r + [freed[i]];
      }
    }
    assert freed[..|freed|] == freed;
  }

  /** The desired paths without a live watch. */
  method NotWatched(desired: Table, osWatched: set<Path>) returns (r: seq<Path>)
    ensures forall p :: p in r <==> p in desired.Values && p !in osWatched
  {
    r := [];
    var todo := desired.Keys;
    while todo != {}
      invariant todo <= desired.Keys
      invariant forall p :: p in r ==> p in desired.Values && p !in osWatched
      invariant forall k :: k in desired && k !in todo && desired[k] !in osWatched ==> desired[k] in r
      decreases todo
    {
      var k :| k in todo;
      if desired[k] !in osWatched {
        r := r + [desired[k]];
      }
      todo := todo - {k};
    }
  }

  lemma RegisteredConsistent(s: Indices, w: string, desired: Table, s': Indices)
    requires Consistent(s) && ForWorkspace(w, desired)
    requires s'.keyPaths == Registered(s.keyPaths, w, desired) && Routed(s'.subscribers, s'.keyPaths)
    requires s'.workspaceKeys == (s.workspaceKeys - {w})[w := desired.Keys]
    ensures s' == RegisteredIndices(s, w, desired) && Consistent(s')
  {
    forall v | v in s'.workspaceKeys
      ensures s'.workspaceKeys[v] == KeysOf(s'.keyPaths, v)
    {
      if v == w {
        assert KeysOf(s'.keyPaths, w) == desired.Keys;
      } else {
        assert KeysOf(s'.keyPaths, v) == KeysOf(s.keyPaths, v);
      }
    }
    assert s'.workspaceKeys.Keys == s.workspaceKeys.Keys + {w};
    ConsistentIsIndicesOf(s');
  }

  lemma UnregisteredConsistent(s: Indices, w: string, s': Indices)
    requires Consistent(s)
    requires s'.keyPaths == Without(s.keyPaths, w) && Routed(s'.subscribers, s'.keyPaths)
    requires s'.workspaceKeys == s.workspaceKeys - {w}
    ensures s' == UnregisteredIndices(s, w) && Consistent(s')
  {
    forall v | v in s'.workspaceKeys
      ensures s'.workspaceKeys[v] == KeysOf(s'.keyPaths, v)
    {
      assert KeysOf(s'.keyPaths, v) == KeysOf(s.keyPaths, v);
    }
    ConsistentIsIndicesOf(s');
  }
}
