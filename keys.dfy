/** Key and mouse-button codes of the binding tables (libs/gtkmm2ext/bindings.cc):
    a `KeyboardKey` or `MouseButton` packs a modifier state and a key or
    button code into one 64-bit word, modifiers in the high half and the code
    in the low half, so that the tables order bindings by modifiers first and
    code second. */
module Keys {
  import opened Wrappers
  import opened Text

  /** The modifier masks of the `Keyboard` class. They are chosen at run time
      and per platform, so the model takes them as parameters. */
  datatype Modifiers = Modifiers(
    relevant: bv32,   // Keyboard::RelevantModifierKeyMask
    primary: bv32,    // Keyboard::PrimaryModifier
    secondary: bv32,  // Keyboard::SecondaryModifier
    tertiary: bv32,   // Keyboard::TertiaryModifier
    level4: bv32)     // Keyboard::Level4Modifier

  /** The GDK key-value queries, foreign to the model. */
  datatype Gdk = Gdk(
    isUpper: bv32 -> bool,       // gdk_keyval_is_upper
    isLower: bv32 -> bool,       // gdk_keyval_is_lower
    toLower: bv32 -> bv32,       // gdk_keyval_to_lower
    fromName: string -> bv32)    // gdk_keyval_from_name

  const ShiftMask: bv32 := 1          // GDK_SHIFT_MASK
  const VoidSymbol: bv32 := 0xffffff  // GDK_VoidSymbol

  /** The 64-bit word `state << 32 | code`. */
  function Pack(state: bv32, code: bv32): (v: bv64)
    ensures (v >> 32) as bv32 == state
    ensures (v & 0xffff_ffff) as bv32 == code
  {
    ((state as bv64) << 32) | (code as bv64)
  }

  /** Two packed words are equal exactly when both halves are. */
  lemma PackInjective(s1: bv32, c1: bv32, s2: bv32, c2: bv32)
    ensures Pack(s1, c1) == Pack(s2, c2) <==> s1 == s2 && c1 == c2
  {
  }

  datatype KeyboardKey = KeyboardKey(val: bv64) {
    /** The modifier half. */
    function State(): bv32 { (val >> 32) as bv32 }
    /** The key-value half. */
    function Key(): bv32 { (val & 0xffff_ffff) as bv32 }
  }

  /** `KeyboardKey (state, keycode)` (bindings.cc:159-166): modifiers outside
      the relevant mask are dropped. */
  function NewKeyboardKey(mods: Modifiers, state: bv32, keycode: bv32): (k: KeyboardKey)
    ensures k.State() == state & mods.relevant
    ensures k.Key() == keycode
    ensures k.val == Pack(state & mods.relevant, keycode)
  {
    var ignore := !mods.relevant;
    KeyboardKey(Pack(state & !ignore, keycode))
  }

  datatype MouseButton = MouseButton(val: bv64) {
    function State(): bv32 { (val >> 32) as bv32 }
    function Button(): bv32 { (val & 0xffff_ffff) as bv32 }
  }

  /** GDK reports a code as both upper and lower case when it has no case. */
  predicate Caseless(gdk: Gdk, code: bv32) {
    gdk.isUpper(code) && gdk.isLower(code)
  }

  /** `MouseButton (state, keycode)` (bindings.cc:64-82): like a keyboard key,
      and Shift is also dropped when the code has no case. */
  function NewMouseButton(mods: Modifiers, gdk: Gdk, state: bv32, code: bv32): (b: MouseButton)
    ensures b.Button() == code
    ensures Caseless(gdk, code) ==> b.State() == state & mods.relevant & !ShiftMask
    ensures !Caseless(gdk, code) ==> b.State() == state & mods.relevant
  {
    var ignore := if Caseless(gdk, code) then !mods.relevant | ShiftMask else !mods.relevant;
    MouseButton(Pack(state & !ignore, code))
  }

  /** Which of the four named modifiers a state or a binding name holds. */
  datatype ModifierSet = ModifierSet(primary: bool, secondary: bool, tertiary: bool, level4: bool)

  /** The modifiers whose masks meet `s` (the tests of `name ()`). */
  function SetIn(mods: Modifiers, s: bv32): ModifierSet {
    ModifierSet(s & mods.primary != 0, s & mods.secondary != 0,
                s & mods.tertiary != 0, s & mods.level4 != 0)
  }

  /** The modifiers whose names occur anywhere in `str` (the tests of
      `make_key` and `make_button`). */
  function Mentioned(str: string): ModifierSet {
    ModifierSet(Contains(str, "Primary"), Contains(str, "Secondary"),
                Contains(str, "Tertiary"), Contains(str, "Level4"))
  }

  /** The union of the masks of a set of modifiers. */
  function MaskOf(mods: Modifiers, m: ModifierSet): bv32 {
    (if m.primary then mods.primary else 0)
    | (if m.secondary then mods.secondary else 0)
    | (if m.tertiary then mods.tertiary else 0)
    | (if m.level4 then mods.level4 else 0)
  }

  /** The modifier word `make_key` and `make_button` build. */
  function ModifierState(mods: Modifiers, str: string): bv32 {
    MaskOf(mods, Mentioned(str))
  }

  /** The text after the last '-', or all of `str` when it has none. */
  function LastSegment(str: string): (r: string)
    ensures |r| <= |str| && r == str[|str| - |r|..] && '-' !in r
  {
    match LastIndexOf(str, '-')
    case Some(i) => str[i + 1..]
    case None => str
  }

  /** The name `make_key` looks up: the last segment, lower-cased when it is a
      single character. */
  function KeyName(str: string): string {
    var actual := LastSegment(str);
    if |actual| == 1 then Downcase(actual) else actual
  }

  /** `KeyboardKey::make_key` (bindings.cc:319-372); `None` where it returns
      false. */
  function MakeKey(mods: Modifiers, gdk: Gdk, str: string): (r: Option<KeyboardKey>)
    ensures r.None? <==> gdk.fromName(KeyName(str)) == VoidSymbol || gdk.fromName(KeyName(str)) == 0
    ensures r.Some? ==> r.value.Key() == gdk.fromName(KeyName(str))
    ensures r.Some? ==> r.value.State() == ModifierState(mods, str) & mods.relevant
  {
    var keyval := gdk.fromName(KeyName(str));
    if keyval == VoidSymbol || keyval == 0 then None
    else Some(NewKeyboardKey(mods, ModifierState(mods, str), keyval))
  }

  /** `MouseButton::make_button` (bindings.cc:84-116), which never fails: the
      button number is `atoi` of the last segment, converted to `uint32_t`. */
  function MakeButton(mods: Modifiers, gdk: Gdk, str: string): (b: MouseButton)
    ensures b.Button() == ButtonNumber(str)
    ensures Caseless(gdk, ButtonNumber(str)) ==> b.State() == ModifierState(mods, str) & mods.relevant & !ShiftMask
    ensures !Caseless(gdk, ButtonNumber(str)) ==> b.State() == ModifierState(mods, str) & mods.relevant
  {
    var state := ModifierState(mods, str);
    var code := ButtonNumber(str);
    var b := NewMouseButton(mods, gdk, state, code);
    assert Caseless(gdk, code) ==> b.State() == state & mods.relevant & !ShiftMask;
    assert !Caseless(gdk, code) ==> b.State() == state & mods.relevant;
    b
  }

  /** `PBD::atoi` of the last segment, assigned to a `uint32_t`. The segment
      holds no '-', so `atoi` never reads a negative number there; a value
      that fits in 32 bits is kept, a larger one is reduced modulo 2^32. */
  function ButtonNumber(str: string): (b: bv32)
    ensures Atoi(LastSegment(str)) >= 0
    ensures Atoi(LastSegment(str)) < 0x1_0000_0000 ==> b == Word(Atoi(LastSegment(str)))
  {
    LastSegmentUnsigned(str);
    var a := Atoi(LastSegment(str));
    if a < 0x1_0000_0000 then SmallModulus(a); Word(a) else Word(a % 0x1_0000_0000)
  }

  /** A negative `atoi` needs a '-' after the white space, and the last
      segment has none. */
  lemma LastSegmentUnsigned(str: string)
    ensures Atoi(LastSegment(str)) >= 0
  {
  }

  /** A number that fits in 32 bits, as a 32-bit word. */
  function Word(n: int): bv32
    requires 0 <= n < 0x1_0000_0000
  {
    n as bv32
  }

  /** The names of a set of modifiers, in the order `name ()` prints them. */
  function ModifierNames(m: ModifierSet): seq<string> {
    (if m.primary then ["Primary"] else [])
    + (if m.secondary then ["Secondary"] else [])
    + (if m.tertiary then ["Tertiary"] else [])
    + (if m.level4 then ["Level4"] else [])
  }

  /** `parts` joined with '-' between neighbours. */
  function JoinDash(parts: seq<string>): string {
    if |parts| == 0 then ""
    else if |parts| == 1 then parts[0]
    else parts[0] + "-" + JoinDash(parts[1..])
  }

  /** The text `name ()` prints for modifiers `m` and button number `n`:
      the modifier names joined by '-', then '-' and the decimal number when a
      modifier was printed. */
  function NameText(m: ModifierSet, n: nat): string {
    var prefix := JoinDash(ModifierNames(m));
    (if prefix == "" then "" else prefix + "-") + FormatUnsigned(n)
  }

  function ButtonNameOf(mods: Modifiers, b: MouseButton): string {
    NameText(SetIn(mods, b.State()), b.Button() as nat)
  }

  /** `MouseButton::name ()` (bindings.cc:118-156), built by appending. */
  method ButtonName(mods: Modifiers, b: MouseButton) returns (str: string)
    ensures str == ButtonNameOf(mods, b)
  {
    var m := SetIn(mods, b.State());
    ghost var parts: seq<string> := [];
    str := "";
    if m.primary {
      str := str + "Primary";
      parts := parts + ["Primary"];
    }
    if m.secondary {
      str, parts := AddPart(str, parts, "Secondary");
    }
    if m.tertiary {
      str, parts := AddPart(str, parts, "Tertiary");
    }
    if m.level4 {
      str, parts := AddPart(str, parts, "Level4");
    }
    ModifierNamesSteps(m);
    assert parts == ModifierNames(m);
    ghost var prefix := JoinDash(ModifierNames(m));
    assert str == prefix;
    var digits := FormatUnsigned(b.Button() as nat);
    if str != "" {
      str := str + "-";
    }
    str := str + digits;
    assert str == (if prefix == "" then "" else prefix + "-") + digits;
  }

  /** One modifier of `name ()` (bindings.cc:128-145): a '-' when something
      was printed, then the modifier's name. */
  method AddPart(str: string, ghost parts: seq<string>, x: string) returns (str': string, ghost parts': seq<string>)
    requires str == JoinDash(parts) && x != ""
    requires forall k :: 0 <= k < |parts| ==> parts[k] != ""
    ensures str' == JoinDash(parts + [x])
    ensures parts' == parts + [x]
    ensures forall k :: 0 <= k < |parts'| ==> parts'[k] != ""
  {
    AppendPart(str, parts, x);
    str' := str;
    if str' != "" {
      str' := str' + "-";
    }
    str' := str' + x;
    parts' := parts + [x];
  }

  /** One step of `name ()`: a '-' when something was printed, then the part. */
  lemma AppendPart(str: string, parts: seq<string>, x: string)
    requires str == JoinDash(parts) && x != ""
    requires forall k :: 0 <= k < |parts| ==> parts[k] != ""
    ensures (if str != "" then str + "-" else str) + x == JoinDash(parts + [x])
    ensures forall k :: 0 <= k < |parts + [x]| ==> (parts + [x])[k] != ""
  {
    JoinDashSnoc(parts, x);
  }

  /** `ModifierNames` built one flag at a time. */
  lemma ModifierNamesSteps(m: ModifierSet)
    ensures ModifierNames(m)
         == var p1 := if m.primary then [] + ["Primary"] else [];
            var p2 := if m.secondary then p1 + ["Secondary"] else p1;
            var p3 := if m.tertiary then p2 + ["Tertiary"] else p2;
            if m.level4 then p3 + ["Level4"] else p3
  {
  }

  /** Appending one more non-empty part to a join. */
  lemma {:induction false} JoinDashSnoc(parts: seq<string>, x: string)
    requires x != ""
    requires forall k :: 0 <= k < |parts| ==> parts[k] != ""
    ensures JoinDash(parts + [x]) == if parts == [] then x else JoinDash(parts) + "-" + x
    ensures JoinDash(parts) == "" <==> parts == []
  {
    if |parts| > 1 {
      assert (parts + [x])[1..] == parts[1..] + [x];
      JoinDashSnoc(parts[1..], x);
    }
  }

  /** Every part of a join occurs in it. */
  lemma {:induction false} JoinDashContainsPart(parts: seq<string>, k: nat)
    requires k < |parts|
    ensures Contains(JoinDash(parts), parts[k])
  {
    if |parts| == 1 {
      ContainsInMiddle("", parts[0], "");
      assert "" + parts[0] + "" == JoinDash(parts);
    } else if k == 0 {
      ContainsInMiddle("", parts[0], "-" + JoinDash(parts[1..]));
      assert "" + parts[0] + ("-" + JoinDash(parts[1..])) == JoinDash(parts);
    } else {
      JoinDashContainsPart(parts[1..], k - 1);
      ContainsAfter(parts[0] + "-", JoinDash(parts[1..]), parts[k]);
    }
  }

  /** A character absent from every part and different from '-' is absent
      from the join. */
  lemma {:induction false} JoinDashLacks(parts: seq<string>, c: char)
    requires c != '-'
    requires forall k :: 0 <= k < |parts| ==> c !in parts[k]
    ensures c !in JoinDash(parts)
  {
    if |parts| > 1 {
      JoinDashLacks(parts[1..], c);
      assert JoinDash(parts) == parts[0] + "-" + JoinDash(parts[1..]);
    }
  }

  lemma ContainsAfter(a: string, b: string, sub: string)
    requires Contains(b, sub)
    ensures Contains(a + b, sub)
  {
    var i: nat :| i <= |b| && OccursAt(b, sub, i);
    assert (a + b)[|a| + i..|a| + i + |sub|] == b[i..i + |sub|];
    ContainsAt(a + b, sub, |a| + i);
  }

  lemma ContainsBefore(a: string, b: string, sub: string)
    requires Contains(a, sub)
    ensures Contains(a + b, sub)
  {
    var i: nat :| i <= |a| && OccursAt(a, sub, i);
    assert (a + b)[i..i + |sub|] == a[i..i + |sub|];
    ContainsAt(a + b, sub, i);
  }

  lemma DigitsLack(digits: string, c: char)
    requires forall i :: 0 <= i < |digits| ==> IsDigit(digits[i])
    requires !IsDigit(c)
    ensures c !in digits
  {
  }

  /** In `prefix + "-" + digits`, the last '-' is the one before the digits. */
  lemma LastSegmentAfterDash(prefix: string, digits: string)
    requires '-' !in digits
    ensures LastSegment(prefix + "-" + digits) == digits
  {
    var name := prefix + "-" + digits;
    assert name[|prefix|] == '-';
    var r := LastIndexOf(name, '-');
    assert r.Some? && r.value >= |prefix|;
    assert name[|prefix| + 1..] == digits;
  }

  /** The segment after the last '-' of a printed name is the number. */
  lemma NameTextLastSegment(m: ModifierSet, n: nat)
    ensures LastSegment(NameText(m, n)) == FormatUnsigned(n)
  {
    var prefix := JoinDash(ModifierNames(m));
    var digits := FormatUnsigned(n);
    DigitsLack(digits, '-');
    if prefix != "" {
      assert NameText(m, n) == prefix + "-" + digits;
      LastSegmentAfterDash(prefix, digits);
    } else {
      assert NameText(m, n) == digits;
      LastSegmentWhole(digits);
    }
  }

  /** A name without '-' is its own last segment. */
  lemma LastSegmentWhole(s: string)
    requires '-' !in s
    ensures LastSegment(s) == s
  {
  }

  /** The four modifier names `name ()` can print. */
  const ModifierWords: seq<string> := ["Primary", "Secondary", "Tertiary", "Level4"]

  /** The names of a set of modifiers are modifier words, and each one is
      there exactly when its modifier is in the set. */
  lemma ModifierNamesWords(m: ModifierSet)
    ensures forall k :: 0 <= k < |ModifierNames(m)| ==> ModifierNames(m)[k] in ModifierWords
    ensures "Primary" in ModifierNames(m) <==> m.primary
    ensures "Secondary" in ModifierNames(m) <==> m.secondary
    ensures "Tertiary" in ModifierNames(m) <==> m.tertiary
    ensures "Level4" in ModifierNames(m) <==> m.level4
  {
  }

  /** No modifier word holds the first letter of another. */
  lemma FirstLetterOnly(x: string, name: string)
    requires x in ModifierWords && name in ModifierWords && x != name
    ensures name[0] !in x
  {
  }

  /** A modifier word occurs in a printed name `JoinDash(parts)`, '-' and
      digits exactly when it is one of the parts. */
  lemma {:induction false} PrintedMentions(parts: seq<string>, digits: string, name: string)
    requires forall k :: 0 <= k < |parts| ==> parts[k] in ModifierWords
    requires forall i :: 0 <= i < |digits| ==> IsDigit(digits[i])
    requires name in ModifierWords
    ensures var prefix := JoinDash(parts);
            Contains((if prefix == "" then "" else prefix + "-") + digits, name) <==> name in parts
  {
    var prefix := JoinDash(parts);
    var text := (if prefix == "" then "" else prefix + "-") + digits;
    if name in parts {
      var k :| 0 <= k < |parts| && parts[k] == name;
      JoinDashContainsPart(parts, k);
      ContainsBefore(prefix, "-" + digits, name);
      assert text == prefix + ("-" + digits);
    } else {
      var first := name[0];
      forall k | 0 <= k < |parts| ensures first !in parts[k] {
        FirstLetterOnly(parts[k], name);
      }
      JoinDashLacks(parts, first);
      DigitsLack(digits, first);
      assert first !in text;
      NotContainsWithoutFirstChar(text, name);
    }
  }

  /** A modifier name occurs in a printed name exactly when that modifier was
      printed. */
  lemma NameTextMentions(m: ModifierSet, n: nat, name: string)
    requires name in ModifierWords
    ensures Contains(NameText(m, n), name) <==> name in ModifierNames(m)
  {
    ModifierNamesWords(m);
    PrintedMentions(ModifierNames(m), FormatUnsigned(n), name);
  }

  /** Reading back a printed name finds the modifiers that were printed. */
  lemma MentionedOfNameText(m: ModifierSet, n: nat)
    ensures Mentioned(NameText(m, n)) == m
  {
    ModifierNamesWords(m);
    NameTextMentions(m, n, "Primary");
    NameTextMentions(m, n, "Secondary");
    NameTextMentions(m, n, "Tertiary");
    NameTextMentions(m, n, "Level4");
  }

  /** `make_button` reads back the button that `name ()` printed: the same
      number, and as modifier state the masks of the modifiers that were set. */
  lemma MakeButtonOfName(mods: Modifiers, gdk: Gdk, b: MouseButton)
    ensures MakeButton(mods, gdk, ButtonNameOf(mods, b))
         == NewMouseButton(mods, gdk, MaskOf(mods, SetIn(mods, b.State())), b.Button())
  {
    var m := SetIn(mods, b.State());
    var n := b.Button() as nat;
    var text := NameText(m, n);
    NameTextLastSegment(m, n);
    AtoiFormatUnsigned(n);
    ButtonNumberRoundTrip(b.Button());
    assert ButtonNumber(text) == b.Button();
    MentionedOfNameText(m, n);
    assert ModifierState(mods, text) == MaskOf(mods, m);
  }

  /** A 32-bit value survives the trip through `int` and back. */
  lemma ButtonNumberRoundTrip(x: bv32)
    ensures ((x as nat) % 0x1_0000_0000) as bv32 == x
  {
    var k := x as nat;
    Bv32Bounds(x);
    SmallModulus(k);
  }

  lemma Bv32Bounds(x: bv32)
    ensures x as nat < 0x1_0000_0000
    ensures (x as nat) as bv32 == x
  {
  }

  lemma SmallModulus(k: int)
    requires 0 <= k < 0x1_0000_0000
    ensures k % 0x1_0000_0000 == k
  {
  }

  /** In `p + [c]` with `p` empty or ending in '-', a name longer than one
      character and without '-' cannot reach the last character. */
  lemma ContainsIgnoresLastChar(p: string, c: char, c': char, name: string)
    requires p == [] || p[|p| - 1] == '-'
    requires |name| >= 2 && '-' !in name
    ensures Contains(p + [c], name) ==> Contains(p + [c'], name)
  {
    if Contains(p + [c], name) {
      var s := p + [c];
      var i: nat :| i <= |s| && OccursAt(s, name, i);
      assert s[i + |name| - 2] == name[|name| - 2] != '-';
      assert i + |name| <= |p|;
      assert (p + [c'])[i..i + |name|] == s[i..i + |name|];
      ContainsAt(p + [c'], name, i);
    }
  }

  lemma MentionedIgnoresLastChar(p: string, c: char, c': char)
    requires p == [] || p[|p| - 1] == '-'
    ensures Mentioned(p + [c]) == Mentioned(p + [c'])
  {
    ContainsIgnoresLastChar(p, c, c', "Primary");
    ContainsIgnoresLastChar(p, c', c, "Primary");
    ContainsIgnoresLastChar(p, c, c', "Secondary");
    ContainsIgnoresLastChar(p, c', c, "Secondary");
    ContainsIgnoresLastChar(p, c, c', "Tertiary");
    ContainsIgnoresLastChar(p, c', c, "Tertiary");
    ContainsIgnoresLastChar(p, c, c', "Level4");
    ContainsIgnoresLastChar(p, c', c, "Level4");
  }

  /** The key name of `p + [c]`, for `p` empty or ending in '-'. */
  lemma KeyNameOfLastChar(p: string, c: char)
    requires p == [] || p[|p| - 1] == '-'
    ensures KeyName(p + [c]) == if c == '-' then "" else [ToLower(c)]
  {
    var s := p + [c];
    var r := LastIndexOf(s, '-');
    if c == '-' {
      assert r == Some(|s| - 1);
    } else if p == [] {
      assert s == [c];
      assert r.None?;
    } else {
      assert s[|p| - 1] == '-';
      assert r.Some? && r.value >= |p| - 1;
      assert r.value == |p| - 1;
      assert s[|p|..] == [c];
    }
  }

  /** A single-character key name is looked up in lower case, so the case of
      it does not matter to `make_key`. */
  lemma MakeKeyIgnoresCase(mods: Modifiers, gdk: Gdk, p: string, c: char)
    requires p == [] || p[|p| - 1] == '-'
    ensures MakeKey(mods, gdk, p + [c]) == MakeKey(mods, gdk, p + [ToLower(c)])
  {
    var lc := ToLower(c);
    MentionedIgnoresLastChar(p, c, lc);
    KeyNameOfLastChar(p, c);
    KeyNameOfLastChar(p, lc);
  }
}
