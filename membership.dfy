/**
 * The membership toggle behind liking a post and following a category:
 * remove the first row with the key if there is one, otherwise append a new
 * row with that key. The key set of the table behaves like a set under it.
 */
module Membership {
  import opened Domain
  import opened Seqs

  ghost predicate Has<T, K>(s: seq<T>, key: T -> K, k: K) {
    exists i :: 0 <= i < |s| && key(s[i]) == k
  }

  ghost predicate UniqueKeys<T, K>(s: seq<T>, key: T -> K) {
    forall i, j :: 0 <= i < j < |s| ==> key(s[i]) != key(s[j])
  }

  ghost function KeySet<T, K>(s: seq<T>, key: T -> K): set<K> {
    set i | 0 <= i < |s| :: key(s[i])
  }

  /** The first row with key `k` (the `FirstOrDefaultAsync` of both toggles). */
  function FindKey<T, K(==)>(s: seq<T>, key: T -> K, k: K): (r: Option<nat>)
    ensures r.Some? ==> r.value < |s| && key(s[r.value]) == k
    ensures r.None? <==> !Has(s, key, k)
  {
    FirstIndex(s, (x: T) => key(x) == k)
  }

  /**
   * The toggle: the table afterwards and whether a row was added. `row` is
   * the row to insert; it carries the key.
   */
  function Toggle<T, K(==)>(s: seq<T>, key: T -> K, k: K, row: T): (r: (seq<T>, bool))
    requires key(row) == k
    ensures r.1 <==> !Has(s, key, k)
    ensures r.1 ==> r.0 == s + [row]
    ensures !r.1 ==> FindKey(s, key, k).Some? && r.0 == RemoveAt(s, FindKey(s, key, k).value)
  {
    match FindKey(s, key, k)
    case Some(i) => (RemoveAt(s, i), false)
    case None => (s + [row], true)
  }

  /**
   * With unique keys before, the keys stay unique, the key set gains or loses
   * exactly `k`, and `k` is present afterwards exactly when a row was added.
   */
  lemma {:induction false} ToggleKeySet<T, K>(s: seq<T>, key: T -> K, k: K, row: T)
    requires key(row) == k
    requires UniqueKeys(s, key)
    ensures var r := Toggle(s, key, k, row);
      && UniqueKeys(r.0, key)
      && KeySet(r.0, key) == (if r.1 then KeySet(s, key) + {k} else KeySet(s, key) - {k})
      && Has(r.0, key, k) == r.1
  {
    var r := Toggle(s, key, k, row);
    if r.1 {
      var t := s + [row];
      forall x | x in KeySet(t, key) ensures x in KeySet(s, key) + {k} {
        var i :| 0 <= i < |t| && key(t[i]) == x;
        if i < |s| { assert key(s[i]) == x; }
      }
      forall x | x in KeySet(s, key) + {k} ensures x in KeySet(t, key) {
        if x == k {
          assert key(t[|s|]) == x;
        } else {
          var i :| 0 <= i < |s| && key(s[i]) == x;
          assert key(t[i]) == x;
        }
      }
      assert key(t[|s|]) == k;
    } else {
      var idx := FindKey(s, key, k).value;
      var t := RemoveAt(s, idx);
      forall a, b | 0 <= a < b < |t| ensures key(t[a]) != key(t[b]) {
        var a' := if a < idx then a else a + 1;
        var b' := if b < idx then b else b + 1;
        assert t[a] == s[a'] && t[b] == s[b'] && a' < b';
      }
      forall j | 0 <= j < |t| ensures key(t[j]) != k {
        var j' := if j < idx then j else j + 1;
        assert t[j] == s[j'] && j' != idx;
      }
      forall x | x in KeySet(t, key) ensures x in KeySet(s, key) - {k} {
        var i :| 0 <= i < |t| && key(t[i]) == x;
        var i' := if i < idx then i else i + 1;
        assert key(s[i']) == x;
      }
      forall x | x in KeySet(s, key) - {k} ensures x in KeySet(t, key) {
        var i :| 0 <= i < |s| && key(s[i]) == x;
        assert i != idx;
        var i' := if i < idx then i else i - 1;
        assert key(t[i']) == x;
      }
    }
  }

  /** Toggling the same key twice restores the key set (the rows themselves may be new ones). */
  lemma ToggleTwice<T, K>(s: seq<T>, key: T -> K, k: K, row1: T, row2: T)
    requires key(row1) == k && key(row2) == k
    requires UniqueKeys(s, key)
    ensures var once := Toggle(s, key, k, row1);
      var twice := Toggle(once.0, key, k, row2);
      KeySet(twice.0, key) == KeySet(s, key) && twice.1 == !once.1 && UniqueKeys(twice.0, key)
  {
    var once := Toggle(s, key, k, row1);
    ToggleKeySet(s, key, k, row1);
    ToggleKeySet(once.0, key, k, row2);
    if once.1 {
      assert k !in KeySet(s, key);
    } else {
      assert k in KeySet(s, key);
    }
  }

  /**
   * The effect on any count: it grows by the new row's contribution, or
   * shrinks by the removed row's.
   */
  lemma ToggleCount<T, K>(s: seq<T>, key: T -> K, k: K, row: T, p: T -> bool)
    requires key(row) == k
    ensures var r := Toggle(s, key, k, row);
      if r.1 then Count(r.0, p) == Count(s, p) + (if p(row) then 1 else 0)
      else Count(r.0, p) + (if p(s[FindKey(s, key, k).value]) then 1 else 0) == Count(s, p)
  {
    var r := Toggle(s, key, k, row);
    if r.1 {
      CountAppend(s, row, p);
    } else {
      CountRemoveAt(s, FindKey(s, key, k).value, p);
    }
  }
}
