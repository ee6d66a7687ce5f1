/** `std::map<Key, V>` over a key that is ordered as an integer
    (`KeyboardKey` and `MouseButton` compare their packed 64-bit `_val` as an
    unsigned integer). The map is its sequence of entries in increasing key order, so
    "the first entry in iteration order" is the entry at the lowest index. */
module SortedMap {
  import opened Wrappers

  datatype Entry<V> = Entry(key: int, value: V)

  /** Keys strictly increase: the iteration order of a `std::map`. */
  predicate Sorted<V>(s: seq<Entry<V>>) {
    forall i, j :: 0 <= i < j < |s| ==> s[i].key < s[j].key
  }

  predicate HasKey<V>(s: seq<Entry<V>>, k: int) {
    exists i :: 0 <= i < |s| && s[i].key == k
  }

  /** `map.find (k)`: the position of the entry with key `k`. */
  function IndexOf<V>(s: seq<Entry<V>>, k: int): (r: Option<nat>)
    ensures r.Some? ==> r.value < |s| && s[r.value].key == k
    ensures r.None? <==> !HasKey(s, k)
  {
    if s == [] then None
    else if s[|s| - 1].key == k then Some(|s| - 1)
    else
      var r := IndexOf(s[..|s| - 1], k);
      assert r.None? ==> forall i :: 0 <= i < |s| ==> s[i].key != k by {
        if r.None? {
          forall i | 0 <= i < |s| ensures s[i].key != k {
            if i < |s| - 1 {
              assert s[i] == s[..|s| - 1][i];
            }
          }
        }
      }
      r
  }

  /** The value stored under `k`, if any. */
  function Find<V>(s: seq<Entry<V>>, k: int): (r: Option<V>)
    ensures r.None? <==> !HasKey(s, k)
  {
    match IndexOf(s, k)
    case Some(i) => Some(s[i].value)
    case None => None
  }

  /** In a sorted map each key sits at exactly one position. */
  lemma FindAt<V>(s: seq<Entry<V>>, i: nat)
    requires Sorted(s) && i < |s|
    ensures IndexOf(s, s[i].key) == Some(i)
    ensures Find(s, s[i].key) == Some(s[i].value)
  {
    var r := IndexOf(s, s[i].key);
    assert r.Some?;
  }

  /** The number of entries whose key is below `k`. */
  function LowerBound<V>(s: seq<Entry<V>>, k: int): (p: nat)
    requires Sorted(s)
    ensures p <= |s|
    ensures forall i :: 0 <= i < p ==> s[i].key < k
    ensures forall i :: p <= i < |s| ==> k <= s[i].key
  {
    if s == [] || k <= s[0].key then 0 else 1 + LowerBound(s[1..], k)
  }

  /** `map.insert (make_pair (k, v))`: adds the entry when `k` is absent; an
      entry already under `k` is kept as it is. */
  function Insert<V>(s: seq<Entry<V>>, k: int, v: V): (r: seq<Entry<V>>)
    requires Sorted(s)
    ensures Sorted(r)
    ensures HasKey(s, k) ==> r == s
    ensures !HasKey(s, k) ==> |r| == |s| + 1
    ensures forall i :: 0 <= i < |r| ==> r[i] == Entry(k, v) || r[i] in s
    ensures forall i :: 0 <= i < |s| ==> s[i] in r
  {
    var p := LowerBound(s, k);
    if p < |s| && s[p].key == k then s
    else
      InsertAt(s, p, Entry(k, v));
      s[..p] + [Entry(k, v)] + s[p..]
  }

  /** Placing `e` at position `p`, between the smaller and the larger keys. */
  lemma InsertAt<V>(s: seq<Entry<V>>, p: nat, e: Entry<V>)
    requires Sorted(s) && p <= |s|
    requires forall i :: 0 <= i < p ==> s[i].key < e.key
    requires forall i :: p <= i < |s| ==> e.key < s[i].key
    ensures var r := s[..p] + [e] + s[p..];
      && |r| == |s| + 1 && r[p] == e
      && (forall i :: 0 <= i < p ==> r[i] == s[i])
      && (forall i :: p < i < |r| ==> r[i] == s[i - 1])
      && Sorted(r)
      && (forall i :: 0 <= i < |r| ==> r[i] == e || r[i] in s)
      && (forall i :: 0 <= i < |s| ==> s[i] in r)
  {
    var r := s[..p] + [e] + s[p..];
    assert forall i :: 0 <= i < p ==> r[i] == s[i];
    assert forall i :: p < i < |r| ==> r[i] == s[i - 1];
    forall i | 0 <= i < |s| ensures s[i] in r {
      if i < p { assert r[i] == s[i]; } else { assert r[i + 1] == s[i]; }
    }
  }

  /** Lookups after an insertion: only an absent `k` changes, to `v`. */
  lemma InsertFind<V>(s: seq<Entry<V>>, k: int, v: V, k': int)
    requires Sorted(s)
    ensures Find(Insert(s, k, v), k') == if k' == k && !HasKey(s, k) then Some(v) else Find(s, k')
  {
    var r := Insert(s, k, v);
    if !HasKey(s, k) {
      if k' == k {
        var p := LowerBound(s, k);
        assert r[p] == Entry(k, v);
        FindAt(r, p);
      } else if HasKey(s, k') {
        var i := IndexOf(s, k').value;
        FindAt(s, i);
        var j :| 0 <= j < |r| && r[j] == s[i];
        FindAt(r, j);
      }
    }
  }

  /** `map.erase (iterator)` at position `i`. */
  function EraseAt<V>(s: seq<Entry<V>>, i: nat): (r: seq<Entry<V>>)
    requires i < |s|
    ensures |r| == |s| - 1
    ensures forall j :: 0 <= j < i ==> r[j] == s[j]
    ensures forall j :: i <= j < |r| ==> r[j] == s[j + 1]
    ensures Sorted(s) ==> Sorted(r)
  {
    s[..i] + s[i + 1..]
  }

  /** Lookups after erasing position `i`: only its key disappears. */
  lemma EraseAtFind<V>(s: seq<Entry<V>>, i: nat, k: int)
    requires Sorted(s) && i < |s|
    ensures Find(EraseAt(s, i), k) == if k == s[i].key then None else Find(s, k)
  {
    var r := EraseAt(s, i);
    if HasKey(s, k) && k != s[i].key {
      var j := IndexOf(s, k).value;
      var j' := if j < i then j else j - 1;
      assert r[j'] == s[j];
      FindAt(r, j');
      FindAt(s, j);
    } else {
      forall j | 0 <= j < |r| ensures r[j].key != k {
        if j < i {
          assert r[j] == s[j];
        } else {
          assert r[j] == s[j + 1];
        }
      }
    }
  }

  /** `map.erase (map.find (k))` when `k` is present; nothing otherwise. */
  function EraseKey<V>(s: seq<Entry<V>>, k: int): (r: seq<Entry<V>>)
    requires Sorted(s)
    ensures Sorted(r)
    ensures HasKey(s, k) ==> |r| == |s| - 1
    ensures !HasKey(s, k) ==> r == s
  {
    match IndexOf(s, k)
    case Some(i) => EraseAt(s, i)
    case None => s
  }

  lemma EraseKeyFind<V>(s: seq<Entry<V>>, k: int, k': int)
    requires Sorted(s)
    ensures Find(EraseKey(s, k), k') == if k' == k then None else Find(s, k')
  {
    match IndexOf(s, k)
    case Some(i) => EraseAtFind(s, i, k');
    case None =>
  }
}
