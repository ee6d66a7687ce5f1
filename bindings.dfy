/** `Gtkmm2ext::Bindings` (libs/gtkmm2ext/bindings.cc): a named set of key and
    mouse-button bindings whose operations update its four tables in place.
    Each method is proved against the function of the same name on the
    tables' value (module Tables), and keeps the invariant `Valid`. */
module BindingsObject {
  import opened Wrappers
  import opened SortedMap
  import opened Keys
  import opened Tables
  import opened TableLemmas

  class Bindings {
    var name: string
    var press: Table
    var release: Table
    var buttonPress: Table
    var buttonRelease: Table

    /** The four tables as one value. */
    function State(): Maps
      reads this
    {
      Maps(press, release, buttonPress, buttonRelease)
    }

    ghost predicate Valid()
      reads this
    {
      State().Valid()
    }

    /** `Bindings (name)`: no bindings yet. */
    constructor(name: string)
      ensures Valid()
      ensures this.name == name
      ensures State() == Maps([], [], [], [])
    {
      this.name := name;
      press := [];
      release := [];
      buttonPress := [];
      buttonRelease := [];
    }

    /** `add (kb, op, name, group)` (bindings.cc:693-718). */
    method Add(kb: KeyboardKey, op: Operation, actionName: string, group: Option<string>) returns (ok: bool)
      requires Valid()
      modifies this
      ensures Valid()
      ensures name == old(name)
      ensures ok == old(State()).AddKey(kb, op, actionName, group).ok
      ensures State() == old(State()).AddKey(kb, op, actionName, group).maps
    {
      ghost var before := State();
      AddKeyValid(before, kb, op, actionName, group);
      if State().IsRegistered(op, actionName) {
        return false;
      }
      var info := ActionInfo(actionName, group.GetOr(""), None);
      ghost var t := Insert(before.GetKeymap(op), KeyOrder(kb), info);
      assert before.AddKey(kb, op, actionName, group) == Outcome(true, before.WithKeymap(op, t));
      if op == Press {
        press := Insert(press, KeyOrder(kb), info);
      } else {
        release := Insert(release, KeyOrder(kb), info);
      }
      assert State() == before.WithKeymap(op, t);
      return true;
    }

    /** `remove (op, name)` (bindings.cc:720-744): scans the key table of `op`
        in key order and erases the first entry carrying `actionName`. */
    method Remove(op: Operation, actionName: string) returns (erased: bool)
      requires Valid()
      modifies this
      ensures Valid()
      ensures name == old(name)
      ensures erased == old(State()).RemoveKey(op, actionName).ok
      ensures State() == old(State()).RemoveKey(op, actionName).maps
    {
      RemoveKeyValid(State(), op, actionName);
      var t := State().GetKeymap(op);
      var found := ScanNamed(t, actionName);
      if found.None? {
        return false;
      }
      var t' := EraseAt(t, found.value);
      if op == Press {
        press := t';
      } else {
        release := t';
      }
      return true;
    }

    /** `replace (kb, op, name)` (bindings.cc:677-691). */
    method Replace(kb: KeyboardKey, op: Operation, actionName: string) returns (ok: bool)
      requires Valid()
      modifies this
      ensures Valid()
      ensures name == old(name)
      ensures ok
      ensures State() == old(State()).Replace(kb, op, actionName).maps
    {
      if State().IsRegistered(op, actionName) {
        var _ := Remove(op, actionName);
      }
      var _ := Add(kb, op, actionName, None);
      return true;
    }

    /** `add (bb, op, name, group)` for a mouse button (bindings.cc:778-785). */
    method AddButton(bb: MouseButton, op: Operation, actionName: string)
      requires Valid()
      modifies this
      ensures Valid()
      ensures name == old(name)
      ensures State() == old(State()).AddButton(bb, op, actionName)
    {
      var info := ActionInfo(actionName, "", None);
      match op
      case Press => buttonPress := Insert(buttonPress, ButtonOrder(bb), info);
      case Release => buttonRelease := Insert(buttonRelease, ButtonOrder(bb), info);
    }

    /** `remove (bb, op)` for a mouse button (bindings.cc:787-796). */
    method RemoveButton(bb: MouseButton, op: Operation)
      requires Valid()
      modifies this
      ensures Valid()
      ensures name == old(name)
      ensures State() == old(State()).RemoveButton(bb, op)
    {
      match op
      case Press => buttonPress := EraseKey(buttonPress, ButtonOrder(bb));
      case Release => buttonRelease := EraseKey(buttonRelease, ButtonOrder(bb));
    }

    /** `relativize ()` (bindings.cc:536-551): the object's name in front of
        every action name, one table after the other. */
    method Relativize()
      requires Valid()
      modifies this
      ensures Valid()
      ensures name == old(name)
      ensures State() == old(State()).Relativize(name)
    {
      RelativizeValid(State(), name);
      press := PrefixNames(press, name);
      release := PrefixNames(release, name);
      buttonPress := PrefixNames(buttonPress, name);
      buttonRelease := PrefixNames(buttonRelease, name);
    }

    /** `load (node)` (bindings.cc:1034-1048): clears the key tables, reads
        every child, and returns true. */
    method Load(mods: Modifiers, gdk: Gdk, node: XmlNode) returns (ok: bool)
      requires Valid()
      modifies this
      ensures Valid()
      ensures name == old(name)
      ensures ok
      ensures State() == old(State()).Load(mods, gdk, node)
    {
      press := [];
      release := [];
      ghost var start := State();
      var i := 0;
      while i < |node.children|
        invariant 0 <= i <= |node.children|
        invariant Valid() && name == old(name)
        invariant State() == start.LoadOperations(mods, gdk, node.children[..i])
      {
        LoadOperation(mods, gdk, node.children[i]);
        assert node.children[..i + 1][..i] == node.children[..i];
        i := i + 1;
      }
      assert node.children[..i] == node.children;
      return true;
    }

    /** `load_operation (node)` (bindings.cc:1050-1097). */
    method LoadOperation(mods: Modifiers, gdk: Gdk, node: XmlNode)
      requires Valid()
      modifies this
      ensures Valid()
      ensures name == old(name)
      ensures State() == old(State()).LoadOperation(mods, gdk, node)
    {
      if node.name == "Press" {
        LoadBindings(mods, gdk, Press, node.children);
      } else if node.name == "Release" {
        LoadBindings(mods, gdk, Release, node.children);
      }
    }

    /** The children of a "Press" or "Release" node, in document order
        (bindings.cc:1063-1096). */
    method LoadBindings(mods: Modifiers, gdk: Gdk, op: Operation, children: seq<XmlNode>)
      requires Valid()
      modifies this
      ensures Valid()
      ensures name == old(name)
      ensures State() == old(State()).LoadBindings(mods, gdk, op, children)
    {
      ghost var start := State();
      var j := 0;
      while j < |children|
        invariant 0 <= j <= |children|
        invariant Valid() && name == old(name)
        invariant State() == start.LoadBindings(mods, gdk, op, children[..j])
      {
        LoadBinding(mods, gdk, op, children[j]);
        assert children[..j + 1][..j] == children[..j];
        j := j + 1;
      }
      assert children[..j] == children;
    }

    /** One child of a "Press" or "Release" node (bindings.cc:1066-1094): a
        binding with an action and a key or a button is added. */
    method LoadBinding(mods: Modifiers, gdk: Gdk, op: Operation, child: XmlNode)
      requires Valid()
      modifies this
      ensures Valid()
      ensures name == old(name)
      ensures State() == old(State()).LoadBinding(mods, gdk, op, child)
    {
      var ap := Property(child, "action");
      var kp := Property(child, "key");
      var bp := Property(child, "button");
      var gp := Property(child, "group");
      if ap.Some? && (kp.Some? || bp.Some?) {
        if kp.Some? {
          var k := MakeKey(mods, gdk, kp.value);
          if k.Some? {
            var _ := Add(k.value, op, ap.value, gp);
          }
        } else {
          AddButton(MakeButton(mods, gdk, bp.value), op, ap.value);
        }
      }
    }
  }

  /** The scan of `remove` (bindings.cc:726-732): the entries in key order
      until one carries `name`. */
  method ScanNamed(t: Table, name: string) returns (found: Option<nat>)
    ensures found == FirstNamed(t, name)
  {
    var i := 0;
    while i < |t|
      invariant 0 <= i <= |t|
      invariant forall j :: 0 <= j < i ==> t[j].value.actionName != name
    {
      if t[i].value.actionName == name {
        return Some(i);
      }
      i := i + 1;
    }
    return None;
  }

  /** One table of `relativize`: each entry's action name rewritten in
      place, in key order. */
  method PrefixNames(t: Table, prefix: string) returns (r: Table)
    ensures r == Prefixed(t, prefix)
  {
    r := t;
    var i := 0;
    while i < |r|
      invariant 0 <= i <= |r| == |t|
      invariant forall j :: 0 <= j < i ==> r[j] == Prefixed(t, prefix)[j]
      invariant forall j :: i <= j < |r| ==> r[j] == t[j]
    {
      var info := r[i].value;
      r := r[i := Entry(r[i].key, info.(actionName := prefix + info.actionName))];
      i := i + 1;
    }
  }
}
