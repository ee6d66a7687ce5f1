/** What the operations on the binding tables promise: the effect of each on
    lookups, and that each keeps the invariant that no action name is bound
    twice in one key table. */
module TableLemmas {
  import opened Wrappers
  import opened SortedMap
  import opened Keys
  import opened Tables

  /** Inserting an entry whose name is new keeps the names unique. */
  lemma InsertUnique(t: Table, k: int, info: ActionInfo)
    requires Sorted(t) && UniqueNames(t) && !Named(t, info.actionName)
    ensures UniqueNames(Insert(t, k, info))
  {
    var r := Insert(t, k, info);
    forall i, j | 0 <= i < j < |r| ensures r[i].value.actionName != r[j].value.actionName {
      assert r[i].key < r[j].key;
      if r[i] == Entry(k, info) {
        var b :| 0 <= b < |t| && t[b] == r[j];
        assert t[b].value.actionName != info.actionName;
      } else if r[j] == Entry(k, info) {
        var a :| 0 <= a < |t| && t[a] == r[i];
        assert t[a].value.actionName != info.actionName;
      } else {
        var a :| 0 <= a < |t| && t[a] == r[i];
        var b :| 0 <= b < |t| && t[b] == r[j];
        PositionOrder(t, a, b);
        assert t[a].value.actionName != t[b].value.actionName;
      }
    }
  }

  /** In a sorted table a smaller key sits at a smaller position. */
  lemma PositionOrder(t: Table, a: nat, b: nat)
    requires Sorted(t) && a < |t| && b < |t| && t[a].key < t[b].key
    ensures a < b
  {
    if a >= b {
      assert false;
    }
  }

  /** Erasing an entry keeps the names unique, and when names are unique no
      other entry carries the erased entry's name. */
  lemma EraseUnique(t: Table, i: nat)
    requires i < |t| && UniqueNames(t)
    ensures UniqueNames(EraseAt(t, i))
    ensures !Named(EraseAt(t, i), t[i].value.actionName)
  {
    var r := EraseAt(t, i);
    forall a, b | 0 <= a < b < |r| ensures r[a].value.actionName != r[b].value.actionName {
      var a' := if a < i then a else a + 1;
      var b' := if b < i then b else b + 1;
      assert r[a] == t[a'] && r[b] == t[b'];
    }
    forall a | 0 <= a < |r| ensures r[a].value.actionName != t[i].value.actionName {
      if a < i {
        assert r[a] == t[a];
      } else {
        assert r[a] == t[a + 1];
      }
    }
  }

  /** `add`: lookups in the key table of `op` change only when the name was
      not yet registered and `kb` was unbound, and then `kb` finds the new
      binding. Every other key keeps what it had. */
  lemma AddKeyFind(m: Maps, kb: KeyboardKey, op: Operation, name: string, group: Option<string>, k: int)
    requires m.Ordered()
    ensures var r := m.AddKey(kb, op, name, group);
            Find(r.maps.GetKeymap(op), k)
              == if r.ok && k == KeyOrder(kb) && !HasKey(m.GetKeymap(op), k)
                 then Some(ActionInfo(name, group.GetOr(""), None))
                 else Find(m.GetKeymap(op), k)
  {
    if !m.IsRegistered(op, name) {
      InsertFind(m.GetKeymap(op), KeyOrder(kb), ActionInfo(name, group.GetOr(""), None), k);
    }
  }

  /** `add` keeps the invariant. */
  lemma AddKeyValid(m: Maps, kb: KeyboardKey, op: Operation, name: string, group: Option<string>)
    requires m.Valid()
    ensures m.AddKey(kb, op, name, group).maps.Valid()
  {
    if !m.IsRegistered(op, name) {
      InsertUnique(m.GetKeymap(op), KeyOrder(kb), ActionInfo(name, group.GetOr(""), None));
    }
  }

  /** After an accepted `add` of an unbound key, `is_bound` reports the name
      and `is_registered` holds. */
  lemma AddThenBound(m: Maps, kb: KeyboardKey, op: Operation, name: string, group: Option<string>)
    requires m.Ordered() && !m.IsRegistered(op, name) && !HasKey(m.GetKeymap(op), KeyOrder(kb))
    ensures m.AddKey(kb, op, name, group).maps.IsBound(kb, op) == Some(name)
    ensures m.AddKey(kb, op, name, group).maps.IsRegistered(op, name)
  {
    var r := m.AddKey(kb, op, name, group).maps;
    AddKeyFind(m, kb, op, name, group, KeyOrder(kb));
    var t := r.GetKeymap(op);
    var i := IndexOf(t, KeyOrder(kb)).value;
    FindAt(t, i);
  }

  /** `remove`: exactly the key of the first entry carrying `name` stops
      being found; every other key keeps what it had. */
  lemma RemoveKeyFind(m: Maps, op: Operation, name: string, k: int)
    requires m.Ordered()
    ensures var t := m.GetKeymap(op);
            var i := FirstNamed(t, name);
            Find(m.RemoveKey(op, name).maps.GetKeymap(op), k)
              == if i.Some? && k == t[i.value].key then None else Find(t, k)
  {
    var t := m.GetKeymap(op);
    match FirstNamed(t, name)
    case Some(i) => EraseAtFind(t, i, k);
    case None =>
  }

  /** `remove` keeps the invariant, and afterwards the name is no longer
      registered in that table. */
  lemma RemoveKeyValid(m: Maps, op: Operation, name: string)
    requires m.Valid()
    ensures m.RemoveKey(op, name).maps.Valid()
    ensures !m.RemoveKey(op, name).maps.IsRegistered(op, name)
  {
    var t := m.GetKeymap(op);
    match FirstNamed(t, name)
    case Some(i) => EraseUnique(t, i);
    case None =>
  }

  /** With unique names, removing `name` frees a key that was unbound or
      bound to `name`. */
  lemma RemoveFreesKey(m: Maps, op: Operation, name: string, k: int)
    requires m.Valid() && m.IsRegistered(op, name)
    requires !HasKey(m.GetKeymap(op), k) || Find(m.GetKeymap(op), k).value.actionName == name
    ensures !HasKey(m.RemoveKey(op, name).maps.GetKeymap(op), k)
  {
    var t := m.GetKeymap(op);
    RemoveKeyFind(m, op, name, k);
    var i := FirstNamed(t, name).value;
    if HasKey(t, k) {
      var j := IndexOf(t, k).value;
      FindAt(t, j);
      assert t[j].value.actionName == name;
      assert !(i < j) && !(j < i);
    }
  }

  /** `replace` keeps the invariant. */
  lemma ReplaceValid(m: Maps, kb: KeyboardKey, op: Operation, name: string)
    requires m.Valid()
    ensures m.Replace(kb, op, name).maps.Valid()
  {
    var cleared := if m.IsRegistered(op, name) then m.RemoveKey(op, name).maps else m;
    if m.IsRegistered(op, name) {
      RemoveKeyValid(m, op, name);
    }
    AddKeyValid(cleared, kb, op, name, None);
  }

  /** After `replace`, unless `kb` was held by a binding of another name,
      `kb` is bound to `name`. */
  lemma ReplaceBinds(m: Maps, kb: KeyboardKey, op: Operation, name: string)
    requires m.Valid()
    requires !HasKey(m.GetKeymap(op), KeyOrder(kb)) || Find(m.GetKeymap(op), KeyOrder(kb)).value.actionName == name
    ensures m.Replace(kb, op, name).maps.IsBound(kb, op) == Some(name)
  {
    var cleared := if m.IsRegistered(op, name) then m.RemoveKey(op, name).maps else m;
    if m.IsRegistered(op, name) {
      RemoveKeyValid(m, op, name);
      RemoveFreesKey(m, op, name, KeyOrder(kb));
    }
    AddThenBound(cleared, kb, op, name, None);
  }

  /** After `replace` on a key held by a binding of another name, `kb` keeps
      that binding (the insert of `add` does not overwrite), and the name,
      whose old binding was removed, is bound nowhere in the table; the
      result is still true. */
  lemma ReplaceOnOtherKey(m: Maps, kb: KeyboardKey, op: Operation, name: string)
    requires m.Valid()
    requires HasKey(m.GetKeymap(op), KeyOrder(kb))
    requires Find(m.GetKeymap(op), KeyOrder(kb)).value.actionName != name
    ensures m.Replace(kb, op, name).ok
    ensures m.Replace(kb, op, name).maps.IsBound(kb, op) == m.IsBound(kb, op)
    ensures !m.Replace(kb, op, name).maps.IsRegistered(op, name)
  {
    var t := m.GetKeymap(op);
    var k := KeyOrder(kb);
    var cleared := if m.IsRegistered(op, name) then m.RemoveKey(op, name).maps else m;
    if m.IsRegistered(op, name) {
      RemoveKeyValid(m, op, name);
      RemoveKeyFind(m, op, name, k);
      var i := FirstNamed(t, name).value;
      FindAt(t, i);
      assert t[i].key != k;
    }
    assert Find(cleared.GetKeymap(op), k) == Find(t, k);
    assert !cleared.IsRegistered(op, name);
    AddKeyFind(cleared, kb, op, name, None, k);
    var r := cleared.AddKey(kb, op, name, None);
    assert Find(r.maps.GetKeymap(op), k) == Find(t, k);
    assert r.maps.GetKeymap(op) == cleared.GetKeymap(op);
  }

  /** `relativize` keeps every key and the size of every table, puts the
      prefix in front of every name, and keeps the invariant. */
  lemma RelativizeValid(m: Maps, prefix: string)
    requires m.Valid()
    ensures m.Relativize(prefix).Valid()
  {
    PrefixedUnique(m.press, prefix);
    PrefixedUnique(m.release, prefix);
  }

  /** The same prefix on distinct names gives distinct names. */
  lemma PrefixedUnique(t: Table, prefix: string)
    requires Sorted(t) && UniqueNames(t)
    ensures Sorted(Prefixed(t, prefix)) && UniqueNames(Prefixed(t, prefix))
  {
    var p := Prefixed(t, prefix);
    forall i, j | 0 <= i < j < |p| ensures p[i].value.actionName != p[j].value.actionName {
      PrefixInjective(prefix, t[i].value.actionName, t[j].value.actionName);
    }
  }

  lemma PrefixInjective(prefix: string, a: string, b: string)
    ensures prefix + a == prefix + b ==> a == b
  {
    if prefix + a == prefix + b {
      assert a == (prefix + a)[|prefix|..];
      assert b == (prefix + b)[|prefix|..];
    }
  }

  /** After `relativize`, a name is registered with the prefix exactly when
      it was registered without it. */
  lemma RelativizeRegistered(m: Maps, prefix: string, op: Operation, name: string)
    ensures m.Relativize(prefix).IsRegistered(op, prefix + name) <==> m.IsRegistered(op, name)
  {
    var t := m.GetKeymap(op);
    var p := m.Relativize(prefix).GetKeymap(op);
    assert p == Prefixed(t, prefix);
    if m.IsRegistered(op, name) {
      var i :| 0 <= i < |t| && t[i].value.actionName == name;
      assert p[i].value.actionName == prefix + name;
    }
    if m.Relativize(prefix).IsRegistered(op, prefix + name) {
      var i :| 0 <= i < |p| && p[i].value.actionName == prefix + name;
      PrefixInjective(prefix, t[i].value.actionName, name);
    }
  }

  /** Button bindings of `a` are all still in `b`, unchanged. */
  ghost predicate ButtonsKept(a: Maps, b: Maps) {
    forall o, k :: HasKey(a.GetMousemap(o), k) ==> Find(b.GetMousemap(o), k) == Find(a.GetMousemap(o), k)
  }

  lemma LoadBindingKeeps(m: Maps, mods: Modifiers, gdk: Gdk, op: Operation, child: XmlNode)
    requires m.Valid()
    ensures m.LoadBinding(mods, gdk, op, child).Valid()
    ensures ButtonsKept(m, m.LoadBinding(mods, gdk, op, child))
  {
    var ap := Property(child, "action");
    var kp := Property(child, "key");
    var bp := Property(child, "button");
    if ap.Some? && kp.Some? && MakeKey(mods, gdk, kp.value).Some? {
      AddKeyValid(m, MakeKey(mods, gdk, kp.value).value, op, ap.value, Property(child, "group"));
    }
  }

  lemma {:induction false} LoadBindingsKeep(m: Maps, mods: Modifiers, gdk: Gdk, op: Operation, cs: seq<XmlNode>)
    requires m.Valid()
    ensures m.LoadBindings(mods, gdk, op, cs).Valid()
    ensures ButtonsKept(m, m.LoadBindings(mods, gdk, op, cs))
    decreases |cs|
  {
    if cs != [] {
      var prev := m.LoadBindings(mods, gdk, op, cs[..|cs| - 1]);
      LoadBindingsKeep(m, mods, gdk, op, cs[..|cs| - 1]);
      LoadBindingKeeps(prev, mods, gdk, op, cs[|cs| - 1]);
    }
  }

  lemma {:induction false} LoadOperationsKeep(m: Maps, mods: Modifiers, gdk: Gdk, nodes: seq<XmlNode>)
    requires m.Valid()
    ensures m.LoadOperations(mods, gdk, nodes).Valid()
    ensures ButtonsKept(m, m.LoadOperations(mods, gdk, nodes))
    decreases |nodes|
  {
    if nodes != [] {
      var prev := m.LoadOperations(mods, gdk, nodes[..|nodes| - 1]);
      LoadOperationsKeep(m, mods, gdk, nodes[..|nodes| - 1]);
      var node := nodes[|nodes| - 1];
      if node.name == "Press" {
        LoadBindingsKeep(prev, mods, gdk, Press, node.children);
      } else if node.name == "Release" {
        LoadBindingsKeep(prev, mods, gdk, Release, node.children);
      }
    }
  }

  /** `load` leaves tables that satisfy the invariant whatever the key
      tables held before, since it clears them, and every button binding
      that was there before is still there. */
  lemma LoadValid(m: Maps, mods: Modifiers, gdk: Gdk, node: XmlNode)
    requires m.Ordered()
    ensures m.Load(mods, gdk, node).Valid()
    ensures forall o, k :: HasKey(m.GetMousemap(o), k) ==>
              Find(m.Load(mods, gdk, node).GetMousemap(o), k) == Find(m.GetMousemap(o), k)
  {
    var cleared := m.(press := [], release := []);
    LoadOperationsKeep(cleared, mods, gdk, node.children);
    assert forall o :: cleared.GetMousemap(o) == m.GetMousemap(o);
  }

  /** The key tables of `a` and `b` are the same. */
  predicate SameKeys(a: Maps, b: Maps) {
    a.press == b.press && a.release == b.release
  }

  /** What reading one child does to the key tables depends only on the key
      tables: `add` consults only the key table of its operation, and a
      button binding never touches a key table. */
  lemma LoadBindingSameKeys(m1: Maps, m2: Maps, mods: Modifiers, gdk: Gdk, op: Operation, child: XmlNode)
    requires m1.Ordered() && m2.Ordered() && SameKeys(m1, m2)
    ensures SameKeys(m1.LoadBinding(mods, gdk, op, child), m2.LoadBinding(mods, gdk, op, child))
  {
    assert forall o :: m1.GetKeymap(o) == m2.GetKeymap(o);
  }

  lemma {:induction false} LoadBindingsSameKeys(m1: Maps, m2: Maps, mods: Modifiers, gdk: Gdk, op: Operation, cs: seq<XmlNode>)
    requires m1.Ordered() && m2.Ordered() && SameKeys(m1, m2)
    ensures SameKeys(m1.LoadBindings(mods, gdk, op, cs), m2.LoadBindings(mods, gdk, op, cs))
    decreases |cs|
  {
    if cs != [] {
      LoadBindingsSameKeys(m1, m2, mods, gdk, op, cs[..|cs| - 1]);
      LoadBindingSameKeys(m1.LoadBindings(mods, gdk, op, cs[..|cs| - 1]),
                          m2.LoadBindings(mods, gdk, op, cs[..|cs| - 1]), mods, gdk, op, cs[|cs| - 1]);
    }
  }

  lemma {:induction false} LoadOperationsSameKeys(m1: Maps, m2: Maps, mods: Modifiers, gdk: Gdk, nodes: seq<XmlNode>)
    requires m1.Ordered() && m2.Ordered() && SameKeys(m1, m2)
    ensures SameKeys(m1.LoadOperations(mods, gdk, nodes), m2.LoadOperations(mods, gdk, nodes))
    decreases |nodes|
  {
    if nodes != [] {
      var p1 := m1.LoadOperations(mods, gdk, nodes[..|nodes| - 1]);
      var p2 := m2.LoadOperations(mods, gdk, nodes[..|nodes| - 1]);
      LoadOperationsSameKeys(m1, m2, mods, gdk, nodes[..|nodes| - 1]);
      var node := nodes[|nodes| - 1];
      if node.name == "Press" {
        LoadBindingsSameKeys(p1, p2, mods, gdk, Press, node.children);
      } else if node.name == "Release" {
        LoadBindingsSameKeys(p1, p2, mods, gdk, Release, node.children);
      }
    }
  }

  /** `load` clears the key tables before reading (bindings.cc:1039-1040):
      the key bindings it leaves are the same whatever any of the four
      tables held before. */
  lemma LoadClearsKeys(m1: Maps, m2: Maps, mods: Modifiers, gdk: Gdk, node: XmlNode)
    requires m1.Ordered() && m2.Ordered()
    ensures forall o :: m1.Load(mods, gdk, node).GetKeymap(o) == m2.Load(mods, gdk, node).GetKeymap(o)
  {
    LoadOperationsSameKeys(m1.(press := [], release := []), m2.(press := [], release := []),
                           mods, gdk, node.children);
  }

  /** Children that are neither "Press" nor "Release" change nothing. */
  lemma {:induction false} LoadOperationsIgnored(m: Maps, mods: Modifiers, gdk: Gdk, nodes: seq<XmlNode>)
    requires m.Ordered()
    requires forall i :: 0 <= i < |nodes| ==> nodes[i].name != "Press" && nodes[i].name != "Release"
    ensures m.LoadOperations(mods, gdk, nodes) == m
    decreases |nodes|
  {
    if nodes != [] {
      LoadOperationsIgnored(m, mods, gdk, nodes[..|nodes| - 1]);
    }
  }

  /** A bindings node with no "Press" or "Release" child leaves no key
      binding and every button binding as it was. */
  lemma LoadWithoutOperations(m: Maps, mods: Modifiers, gdk: Gdk, node: XmlNode)
    requires m.Ordered()
    requires forall i :: 0 <= i < |node.children| ==>
               node.children[i].name != "Press" && node.children[i].name != "Release"
    ensures m.Load(mods, gdk, node).EmptyKeys()
    ensures forall o :: m.Load(mods, gdk, node).GetMousemap(o) == m.GetMousemap(o)
  {
    LoadOperationsIgnored(m.(press := [], release := []), mods, gdk, node.children);
  }
}
