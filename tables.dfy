/** The four binding tables of a `Bindings` object (libs/gtkmm2ext/bindings.cc)
    as a value, with the queries on them and, for each operation that changes
    them, the new tables it produces. The `Bindings` class (bindings.dfy) is
    proved against these functions. */
module Tables {
  import opened Wrappers
  import opened SortedMap
  import opened Keys

  /** `Gtkmm2ext::Bindings::Operation`. */
  datatype Operation = Press | Release

  /** A handle on a GTK action (`Glib::RefPtr<Gtk::Action>`). */
  datatype ActionRef = ActionRef(id: nat)

  /** `Bindings::ActionInfo`: the bound action's name, its group, and the
      action itself once it has been looked up. */
  datatype ActionInfo = ActionInfo(actionName: string, groupName: string, action: Option<ActionRef>)

  /** `KeybindingMap` and `MouseButtonBindingMap`. */
  type Table = seq<Entry<ActionInfo>>

  /** The map order of a key: its packed 64-bit word as an unsigned integer. */
  function KeyOrder(kb: KeyboardKey): nat { kb.val as nat }

  function ButtonOrder(b: MouseButton): nat { b.val as nat }

  /** No two entries of `t` carry the same action name. */
  predicate UniqueNames(t: Table) {
    forall i, j :: 0 <= i < j < |t| ==> t[i].value.actionName != t[j].value.actionName
  }

  /** Some entry of `t` carries `name` (`ActionNameRegistered` over the map). */
  predicate Named(t: Table, name: string) {
    exists i :: 0 <= i < |t| && t[i].value.actionName == name
  }

  /** The position of the first entry, in key order, that carries `name`. */
  function FirstNamed(t: Table, name: string): (r: Option<nat>)
    ensures r.Some? ==> r.value < |t| && t[r.value].value.actionName == name
    ensures r.Some? ==> forall j :: 0 <= j < r.value ==> t[j].value.actionName != name
    ensures r.None? <==> !Named(t, name)
  {
    if t == [] then None
    else if t[0].value.actionName == name then Some(0)
    else
      match FirstNamed(t[1..], name)
      case Some(i) => Some(i + 1)
      case None =>
        assert forall j :: 0 < j < |t| ==> t[j] == t[1..][j - 1];
        None
  }

  /** Every action name of `t` with `prefix` in front (`relativize`). */
  function Prefixed(t: Table, prefix: string): (r: Table)
    ensures |r| == |t|
    ensures forall i :: 0 <= i < |t| ==> r[i].key == t[i].key
    ensures forall i :: 0 <= i < |t| ==> r[i].value == t[i].value.(actionName := prefix + t[i].value.actionName)
  {
    seq(|t|, i requires 0 <= i < |t| => Entry(t[i].key, t[i].value.(actionName := prefix + t[i].value.actionName)))
  }

  /** The outcome of an operation that reports success: the flag it returns
      and the tables it leaves. */
  datatype Outcome = Outcome(ok: bool, maps: Maps)

  /** What `activate` did: the value it returns and the action it fired. */
  datatype Activation = Activation(handled: bool, fired: Option<ActionRef>)

  /** The `ActionManager` and action queries `activate` calls, foreign to the
      model. */
  datatype ActionManager = ActionManager(
    getAction: string -> Option<ActionRef>,  // ActionManager::get_action (name, false)
    sensitive: ActionRef -> bool,            // Action::get_sensitive
    nameOf: ActionRef -> string)             // Action::get_name

  /** An element of the bindings XML: its name, its properties and its
      children. */
  datatype XmlNode = XmlNode(name: string, properties: map<string, string>, children: seq<XmlNode>)

  /** `node.property (key)`, `None` for a null pointer. */
  function Property(node: XmlNode, key: string): (r: Option<string>)
    ensures r.Some? <==> key in node.properties
    ensures r.Some? ==> r.value == node.properties[key]
  {
    if key in node.properties then Some(node.properties[key]) else None
  }

  /** The action a table entry stands for: the one stored with it, otherwise
      the one the `ActionManager` finds by name. */
  function Resolve(am: ActionManager, info: ActionInfo): (r: Option<ActionRef>)
    ensures info.action.Some? ==> r == info.action
    ensures info.action.None? ==> r == am.getAction(info.actionName)
  {
    if info.action.Some? then info.action else am.getAction(info.actionName)
  }

  datatype Maps = Maps(press: Table, release: Table, buttonPress: Table, buttonRelease: Table) {

    /** Each table is in strictly increasing key order, as a `std::map` is. */
    predicate Ordered() {
      Sorted(press) && Sorted(release) && Sorted(buttonPress) && Sorted(buttonRelease)
    }

    /** The invariant `add` keeps: no action name is bound twice in one key
        table. */
    predicate Valid() {
      Ordered() && UniqueNames(press) && UniqueNames(release)
    }

    /** `get_keymap (op)` (bindings.cc:1197-1207): Press gives the press table,
        any other operation the release table. */
    function GetKeymap(op: Operation): (r: Table)
      ensures op.Press? ==> r == press
      ensures op.Release? ==> r == release
    {
      match op
      case Press => press
      case Release => release
    }

    /** `get_mousemap (op)` (bindings.cc:1221-1231). */
    function GetMousemap(op: Operation): (r: Table)
      ensures op.Press? ==> r == buttonPress
      ensures op.Release? ==> r == buttonRelease
    {
      match op
      case Press => buttonPress
      case Release => buttonRelease
    }

    /** These tables with the key table of `op` replaced by `t`. */
    function WithKeymap(op: Operation, t: Table): (r: Maps)
      ensures r.GetKeymap(op) == t
      ensures forall o :: o != op ==> r.GetKeymap(o) == GetKeymap(o)
      ensures forall o :: r.GetMousemap(o) == GetMousemap(o)
    {
      match op
      case Press => this.(press := t)
      case Release => this.(release := t)
    }

    /** These tables with the button table of `op` replaced by `t`. */
    function WithMousemap(op: Operation, t: Table): (r: Maps)
      ensures r.GetMousemap(op) == t
      ensures forall o :: o != op ==> r.GetMousemap(o) == GetMousemap(o)
      ensures forall o :: r.GetKeymap(o) == GetKeymap(o)
    {
      match op
      case Press => this.(buttonPress := t)
      case Release => this.(buttonRelease := t)
    }

    /** `empty_keys ()` (bindings.cc:462-466): no key is bound for either
        operation. */
    predicate EmptyKeys()
      ensures EmptyKeys() <==> forall o, k :: !HasKey(GetKeymap(o), k)
    {
      assert |press| > 0 ==> HasKey(GetKeymap(Press), press[0].key);
      assert |release| > 0 ==> HasKey(GetKeymap(Release), release[0].key);
      |press| == 0 && |release| == 0
    }

    /** `empty_mouse ()` (bindings.cc:468-472): no button is bound. */
    predicate EmptyMouse()
      ensures EmptyMouse() <==> forall o, k :: !HasKey(GetMousemap(o), k)
    {
      assert |buttonPress| > 0 ==> HasKey(GetMousemap(Press), buttonPress[0].key);
      assert |buttonRelease| > 0 ==> HasKey(GetMousemap(Release), buttonRelease[0].key);
      |buttonPress| == 0 && |buttonRelease| == 0
    }

    /** `empty ()` (bindings.cc:474-478): nothing is bound at all. */
    predicate Empty()
      ensures Empty() <==> forall o, k :: !HasKey(GetKeymap(o), k) && !HasKey(GetMousemap(o), k)
    {
      EmptyKeys() && EmptyMouse()
    }

    /** `is_registered (op, name)` (bindings.cc:1190-1195). */
    predicate IsRegistered(op: Operation, name: string)
      ensures IsRegistered(op, name) <==> FirstNamed(GetKeymap(op), name).Some?
    {
      Named(GetKeymap(op), name)
    }

    /** `is_bound (kb, op, &path)` (bindings.cc:1158-1170): the action name
        bound to `kb`, when it is bound. */
    function IsBound(kb: KeyboardKey, op: Operation): (r: Option<string>)
      ensures r.Some? <==> HasKey(GetKeymap(op), KeyOrder(kb))
      ensures r.Some? ==> exists i :: 0 <= i < |GetKeymap(op)| && GetKeymap(op)[i].key == KeyOrder(kb)
                                      && GetKeymap(op)[i].value.actionName == r.value
    {
      var t := GetKeymap(op);
      match IndexOf(t, KeyOrder(kb))
      case Some(i) => Some(t[i].value.actionName)
      case None => None
    }

    /** `add (kb, op, name, group)` (bindings.cc:693-718): refused when the
        name is already bound in the key table of `op`; otherwise the binding
        is inserted, which leaves a binding already held by `kb` in place. */
    function AddKey(kb: KeyboardKey, op: Operation, name: string, group: Option<string>): (r: Outcome)
      requires Ordered()
      ensures r.maps.Ordered()
      ensures r.ok <==> !IsRegistered(op, name)
      ensures !r.ok ==> r.maps == this
      ensures forall o :: o != op ==> r.maps.GetKeymap(o) == GetKeymap(o)
      ensures forall o :: r.maps.GetMousemap(o) == GetMousemap(o)
    {
      if IsRegistered(op, name) then Outcome(false, this)
      else
        var t := Insert(GetKeymap(op), KeyOrder(kb), ActionInfo(name, group.GetOr(""), None));
        Outcome(true, WithKeymap(op, t))
    }

    /** `remove (op, name)` (bindings.cc:720-744): erases the first entry in
        key order that carries `name`, from the key table of `op` only. */
    function RemoveKey(op: Operation, name: string): (r: Outcome)
      requires Ordered()
      ensures r.maps.Ordered()
      ensures r.ok <==> IsRegistered(op, name)
      ensures !r.ok ==> r.maps == this
      ensures r.ok ==> |r.maps.GetKeymap(op)| == |GetKeymap(op)| - 1
      ensures forall o :: o != op ==> r.maps.GetKeymap(o) == GetKeymap(o)
      ensures forall o :: r.maps.GetMousemap(o) == GetMousemap(o)
    {
      var t := GetKeymap(op);
      match FirstNamed(t, name)
      case Some(i) => Outcome(true, WithKeymap(op, EraseAt(t, i)))
      case None => Outcome(false, this)
    }

    /** `replace (kb, op, name)` (bindings.cc:677-691): any binding of `name`
        is removed, then `kb` is added for it; the result is always true. */
    function Replace(kb: KeyboardKey, op: Operation, name: string): (r: Outcome)
      requires Ordered()
      ensures r.ok
      ensures r.maps.Ordered()
      ensures forall o :: o != op ==> r.maps.GetKeymap(o) == GetKeymap(o)
      ensures forall o :: r.maps.GetMousemap(o) == GetMousemap(o)
    {
      var cleared := if IsRegistered(op, name) then RemoveKey(op, name).maps else this;
      Outcome(true, cleared.AddKey(kb, op, name, None).maps)
    }

    /** `add (bb, op, name, group)` for a mouse button (bindings.cc:778-785):
        insertion without any check of the name; the group is ignored. */
    function AddButton(bb: MouseButton, op: Operation, name: string): (r: Maps)
      requires Ordered()
      ensures r.Ordered()
      ensures forall o :: o != op ==> r.GetMousemap(o) == GetMousemap(o)
      ensures forall o :: r.GetKeymap(o) == GetKeymap(o)
      ensures forall k :: Find(r.GetMousemap(op), k)
                        == if k == ButtonOrder(bb) && !HasKey(GetMousemap(op), k)
                           then Some(ActionInfo(name, "", None)) else Find(GetMousemap(op), k)
    {
      var t := GetMousemap(op);
      var info := ActionInfo(name, "", None);
      var r := WithMousemap(op, Insert(t, ButtonOrder(bb), info));
      assert forall k :: Find(r.GetMousemap(op), k)
                       == if k == ButtonOrder(bb) && !HasKey(t, k) then Some(info) else Find(t, k) by {
        forall k ensures Find(r.GetMousemap(op), k)
                       == if k == ButtonOrder(bb) && !HasKey(t, k) then Some(info) else Find(t, k) {
          InsertFind(t, ButtonOrder(bb), info, k);
        }
      }
      r
    }

    /** `remove (bb, op)` for a mouse button (bindings.cc:787-796): erases the
        entry of `bb`, if there is one. */
    function RemoveButton(bb: MouseButton, op: Operation): (r: Maps)
      requires Ordered()
      ensures r.Ordered()
      ensures forall o :: o != op ==> r.GetMousemap(o) == GetMousemap(o)
      ensures forall o :: r.GetKeymap(o) == GetKeymap(o)
      ensures forall k :: Find(r.GetMousemap(op), k)
                        == if k == ButtonOrder(bb) then None else Find(GetMousemap(op), k)
    {
      var t := GetMousemap(op);
      var r := WithMousemap(op, EraseKey(t, ButtonOrder(bb)));
      assert forall k :: Find(r.GetMousemap(op), k)
                       == if k == ButtonOrder(bb) then None else Find(t, k) by {
        forall k ensures Find(r.GetMousemap(op), k)
                       == if k == ButtonOrder(bb) then None else Find(t, k) {
          EraseKeyFind(t, ButtonOrder(bb), k);
        }
      }
      r
    }

    /** `relativize ()` (bindings.cc:536-551): `prefix` (the object's `_name`)
        in front of every action name of all four tables. */
    function Relativize(prefix: string): (r: Maps)
      ensures forall o :: r.GetKeymap(o) == Prefixed(GetKeymap(o), prefix)
      ensures forall o :: r.GetMousemap(o) == Prefixed(GetMousemap(o), prefix)
    {
      Maps(Prefixed(press, prefix), Prefixed(release, prefix),
           Prefixed(buttonPress, prefix), Prefixed(buttonRelease, prefix))
    }

    /** `activate (kb, op)` (bindings.cc:480-534). The key is looked up with
        its code lower-cased; during a drag only an "Escape" action may run;
        an insensitive action is not run and gives false; a key bound to no
        findable action still gives true. */
    function Activate(am: ActionManager, mods: Modifiers, gdk: Gdk, dragActive: bool,
                      kb: KeyboardKey, op: Operation): (r: Activation)
      ensures var unshifted := NewKeyboardKey(mods, kb.State(), gdk.toLower(kb.Key()));
              var found := Find(GetKeymap(op), KeyOrder(unshifted));
              && (found.None? ==> r == Activation(false, None))
              && (found.Some? && dragActive
                  && (Resolve(am, found.value).None? || am.nameOf(Resolve(am, found.value).value) != "Escape")
                  ==> r == Activation(true, None))
              && (r.fired.Some? ==> found.Some? && r.fired == Resolve(am, found.value))
              && (r.fired.Some? ==> r.handled && am.sensitive(r.fired.value))
              && (r.fired.Some? && dragActive ==> am.nameOf(r.fired.value) == "Escape")
              && (!r.handled ==> found.None? || (Resolve(am, found.value).Some? && !am.sensitive(Resolve(am, found.value).value)))
              && (found.Some? && r.fired.None? && r.handled ==>
                    Resolve(am, found.value).None? || dragActive)
              && (found.Some? && Resolve(am, found.value).None? ==> r == Activation(true, None))
              && (found.Some? && Resolve(am, found.value).Some?
                  && (!dragActive || am.nameOf(Resolve(am, found.value).value) == "Escape")
                  ==> r == (if am.sensitive(Resolve(am, found.value).value)
                            then Activation(true, Resolve(am, found.value))
                            else Activation(false, None)))
    {
      var unshifted := NewKeyboardKey(mods, kb.State(), gdk.toLower(kb.Key()));
      match Find(GetKeymap(op), KeyOrder(unshifted))
      case None => Activation(false, None)
      case Some(info) =>
        var action := Resolve(am, info);
        if dragActive && (action.None? || am.nameOf(action.value) != "Escape") then Activation(true, None)
        else if action.Some? && !am.sensitive(action.value) then Activation(false, None)
        else Activation(true, action)
    }

    /** `activate (bb, op)` for a mouse button (bindings.cc:747-776): false
        when the button is not bound, otherwise true, running the action when
        one is found (no drag or sensitivity test). */
    function ActivateButton(am: ActionManager, bb: MouseButton, op: Operation): (r: Activation)
      ensures r.handled <==> HasKey(GetMousemap(op), ButtonOrder(bb))
      ensures r.handled ==> r.fired == Resolve(am, Find(GetMousemap(op), ButtonOrder(bb)).value)
      ensures !r.handled ==> r.fired.None?
    {
      match Find(GetMousemap(op), ButtonOrder(bb))
      case None => Activation(false, None)
      case Some(info) => Activation(true, Resolve(am, info))
    }

    /** One child of a Press or Release node (bindings.cc:1071-1094): skipped
        without "action", without both "key" and "button", or when the key
        does not parse; otherwise added, as a key when it has "key" and as a
        button otherwise. */
    function LoadBinding(mods: Modifiers, gdk: Gdk, op: Operation, child: XmlNode): (r: Maps)
      requires Ordered()
      ensures r.Ordered()
      ensures Property(child, "action").None? ==> r == this
      ensures Property(child, "key").None? && Property(child, "button").None? ==> r == this
      ensures Property(child, "key").Some? && MakeKey(mods, gdk, Property(child, "key").value).None? ==> r == this
      ensures Property(child, "action").Some? && Property(child, "key").Some?
              && MakeKey(mods, gdk, Property(child, "key").value).Some? ==>
              r == AddKey(MakeKey(mods, gdk, Property(child, "key").value).value, op,
                          Property(child, "action").value, Property(child, "group")).maps
      ensures Property(child, "action").Some? && Property(child, "key").None? && Property(child, "button").Some? ==>
              r == AddButton(MakeButton(mods, gdk, Property(child, "button").value), op, Property(child, "action").value)
    {
      var ap := Property(child, "action");
      var kp := Property(child, "key");
      var bp := Property(child, "button");
      if ap.None? || (kp.None? && bp.None?) then this
      else if kp.Some? then
        match MakeKey(mods, gdk, kp.value)
        case None => this
        case Some(k) => AddKey(k, op, ap.value, Property(child, "group")).maps
      else
        AddButton(MakeButton(mods, gdk, bp.value), op, ap.value)
    }

    /** The children of a Press or Release node, in document order. */
    function LoadBindings(mods: Modifiers, gdk: Gdk, op: Operation, cs: seq<XmlNode>): (r: Maps)
      requires Ordered()
      ensures r.Ordered()
      decreases |cs|
    {
      if cs == [] then this
      else LoadBindings(mods, gdk, op, cs[..|cs| - 1]).LoadBinding(mods, gdk, op, cs[|cs| - 1])
    }

    /** `load_operation (node)` (bindings.cc:1050-1097): only a node named
        "Press" or "Release" is read. */
    function LoadOperation(mods: Modifiers, gdk: Gdk, node: XmlNode): (r: Maps)
      requires Ordered()
      ensures r.Ordered()
      ensures node.name != "Press" && node.name != "Release" ==> r == this
    {
      if node.name == "Press" then LoadBindings(mods, gdk, Press, node.children)
      else if node.name == "Release" then LoadBindings(mods, gdk, Release, node.children)
      else this
    }

    /** The children of the bindings node, in document order. */
    function LoadOperations(mods: Modifiers, gdk: Gdk, nodes: seq<XmlNode>): (r: Maps)
      requires Ordered()
      ensures r.Ordered()
      decreases |nodes|
    {
      if nodes == [] then this
      else LoadOperations(mods, gdk, nodes[..|nodes| - 1]).LoadOperation(mods, gdk, nodes[|nodes| - 1])
    }

    /** `load (node)` (bindings.cc:1034-1048): the key tables are cleared,
        the button tables are not, then every child is read. */
    function Load(mods: Modifiers, gdk: Gdk, node: XmlNode): (r: Maps)
      requires Ordered()
      ensures r.Ordered()
    {
      this.(press := [], release := []).LoadOperations(mods, gdk, node.children)
    }
  }
}
