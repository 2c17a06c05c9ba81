/**
 * The dictionary bookkeeping the page classes share: carousel positions with
 * C#'s `%`, show/hide flags where a missing key reads as false, and draft
 * texts that are created empty on first use.
 */
module PageDicts {

  /** C#'s `%` on `int`: the remainder truncates toward zero, so it takes the sign of `a`. */
  function CsRem(a: int, b: int): (r: int)
    requires b != 0
    ensures a >= 0 ==> 0 <= r < (if b > 0 then b else -b)
    ensures a < 0 ==> -(if b > 0 then b else -b) < r <= 0
    ensures 0 <= a < (if b > 0 then b else -b) ==> r == a
    ensures a == b || a == -b ==> r == 0
    ensures a == CsQuot(a, b) * b + r
  {
    CsRemFacts(a, b);
    if a >= 0 then a % b else -((-a) % b)
  }

  /** C#'s `/` on `int`: the quotient truncates toward zero. */
  function CsQuot(a: int, b: int): int
    requires b != 0
  {
    if a >= 0 then a / b else -((-a) / b)
  }

  /** The truncating quotient and remainder recompose the dividend. */
  lemma CsDivision(a: int, b: int)
    requires b != 0
    ensures a == CsQuot(a, b) * b + (if a >= 0 then a % b else -((-a) % b))
  {
    if a < 0 {
      var q := (-a) / b;
      var m := (-a) % b;
      assert -a == b * q + m;
      assert (-q) * b == -(q * b);
    }
  }

  /** The bounds of the truncating remainder and its value at small dividends and at `±b`. */
  lemma CsRemFacts(a: int, b: int)
    requires b != 0
    ensures var r := if a >= 0 then a % b else -((-a) % b);
      && (a >= 0 ==> 0 <= r < (if b > 0 then b else -b))
      && (a < 0 ==> -(if b > 0 then b else -b) < r <= 0)
      && (0 <= a < (if b > 0 then b else -b) ==> r == a)
      && (a == b || a == -b ==> r == 0)
      && a == CsQuot(a, b) * b + r
  {
    CsDivision(a, b);
    if 0 <= a < (if b > 0 then b else -b) {
      SmallRemainder(a, b);
    }
    if a == b || a == -b {
      SelfRemainder(a, b);
    }
  }

  /** A dividend of `b` or `-b` leaves no remainder. */
  lemma SelfRemainder(a: int, b: int)
    requires b != 0 && (a == b || a == -b)
    ensures (if a >= 0 then a % b else -((-a) % b)) == 0
  {
    var c := if a >= 0 then a else -a;
    assert c == b || c == -b;
    if c == b {
      assert c == 1 * b + 0;
    } else {
      assert c == (-1) * b + 0;
    }
  }

  /** A non-negative value below the divisor is its own remainder. */
  lemma SmallRemainder(a: int, b: int)
    requires b != 0 && 0 <= a < (if b > 0 then b else -b)
    ensures a % b == a
  {
    var q := a / b;
    assert a == q * b + a % b;
  }

  /** `GetCurrentIndex` before it reads: an unseen key is stored as 0. */
  function WithIndex<K>(m: map<K, int>, key: K): (r: map<K, int>)
    ensures key in r && r.Keys == m.Keys + {key}
    ensures key in m ==> r == m
    ensures key !in m ==> r[key] == 0
    ensures forall k :: k in m ==> r[k] == m[k]
  {
    if key in m then m else m[key := 0]
  }

  /** The slide after `i` of `total`, as `NextSlide` computes it. */
  function NextIndex(i: int, total: int): int
    requires total != 0
  {
    CsRem(i + 1, total)
  }

  /** The slide before `i` of `total`, as `PrevSlide` computes it. */
  function PrevIndex(i: int, total: int): int
    requires total != 0
  {
    CsRem(i - 1 + total, total)
  }

  /** For a positive count, moving either way keeps a valid slide index valid. */
  lemma SlidesStayInRange(i: int, total: int)
    requires total > 0 && 0 <= i < total
    ensures 0 <= NextIndex(i, total) < total
    ensures 0 <= PrevIndex(i, total) < total
    ensures NextIndex(i, total) == if i == total - 1 then 0 else i + 1
    ensures PrevIndex(i, total) == if i == 0 then total - 1 else i - 1
  {
  }

  /** Back after forward, and forward after back, returns to the same slide. */
  lemma PrevUndoesNext(i: int, total: int)
    requires total > 0 && 0 <= i < total
    ensures PrevIndex(NextIndex(i, total), total) == i
    ensures NextIndex(PrevIndex(i, total), total) == i
  {
    SlidesStayInRange(i, total);
    SlidesStayInRange(NextIndex(i, total), total);
    SlidesStayInRange(PrevIndex(i, total), total);
  }

  /** A show/hide flag: a missing key reads as false. */
  function Flag<K>(m: map<K, bool>, key: K): bool {
    key in m && m[key]
  }

  /** The flag toggle of `ToggleComments` and `ToggleReplyBox`: the key is set to the negation of its reading. */
  function Toggled<K>(m: map<K, bool>, key: K): (r: map<K, bool>)
    ensures key in r && r.Keys == m.Keys + {key}
    ensures Flag(r, key) == !Flag(m, key)
    ensures forall k :: k in m && k != key ==> r[k] == m[k]
  {
    m[key := !Flag(m, key)]
  }

  /** Toggling twice restores the reading of every key. */
  lemma ToggledTwice<K>(m: map<K, bool>, key: K, other: K)
    ensures Flag(Toggled(Toggled(m, key), key), other) == Flag(m, other)
  {
  }

  /** `ToggleReplyBox`'s draft rule: an empty draft is created for a new key; an existing draft is kept. */
  function WithDraft<K>(d: map<K, string>, key: K): (r: map<K, string>)
    ensures key in r && r.Keys == d.Keys + {key}
    ensures key in d ==> r == d
    ensures key !in d ==> r[key] == ""
    ensures forall k :: k in d ==> r[k] == d[k]
  {
    if key in d then d else d[key := ""]
  }
}
