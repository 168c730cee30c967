/**
 * The sort buttons of the inventory and market pages
 * (`InventoryPageContent._on_click_sort` / `__sort_items` in
 * app/ui/pages/page_inventory.py and `MarketPageContent._on_click_sort` /
 * `__sort_items` in app/ui/pages/page_market.py).
 *
 * A click cycles one button through no arrow, up arrow, down arrow and
 * clears every other button.  Sorting applies the active criteria from the
 * last to the first with Python's stable `list.sort`, so the first active
 * criterion ends up as the primary key.  An up arrow sorts with
 * `reverse=True`.
 */
module Sorting {

  // ----- the buttons -----

  /** A button's icon: none, `ARROW_UPWARD` or `ARROW_DOWNWARD`. */
  datatype SortState = Off | Up | Down

  /** One click: down goes off, up goes down, anything else goes up. */
  function Click(s: SortState): (r: SortState)
    ensures r != s
  {
    match s
    case Down => Off
    case Up => Down
    case Off => Up
  }

  /** Three clicks bring a button back to where it was. */
  lemma ClickCycle(s: SortState)
    ensures Click(Click(Click(s))) == s
    ensures Click(Off) == Up && Click(Up) == Down && Click(Down) == Off
  {
  }

  /** `_get_sort_value`: 1 for a down arrow, -1 for an up arrow, 0 for none. */
  function SortValue(s: SortState): int
  {
    match s
    case Down => 1
    case Up => -1
    case Off => 0
  }

  predicate AtMostOneActive(states: seq<SortState>)
  {
    forall i, j :: 0 <= i < j < |states| && states[i] != Off ==> states[j] == Off
  }

  /** A row of sort buttons. */
  class SortButtons {
    var states: seq<SortState>

    /** The buttons with their icons as the page sets them up. */
    constructor (initial: seq<SortState>)
      ensures states == initial
    {
      states := initial;
    }

    /** `_on_click_sort` on button `k`: it advances one step and every other button is cleared. */
    method OnClickSort(k: nat)
      requires k < |states|
      modifies this
      ensures |states| == |old(states)|
      ensures states[k] == Click(old(states)[k])
      ensures forall i :: 0 <= i < |states| && i != k ==> states[i] == Off
      ensures AtMostOneActive(states)
    {
      var s := Click(states[k]);
      var i := 0;
      while i < |states|
        invariant 0 <= i <= |states| == |old(states)|
        invariant forall j :: 0 <= j < i && j != k ==> states[j] == Off
        invariant forall j :: i <= j < |states| ==> states[j] == old(states)[j]
        invariant k < i ==> states[k] == s
      {
        states := states[i := if i == k then s else Off];
        i := i + 1;
      }
    }
  }

  // ----- keys and their order -----

  /** A sort key: a number, or a text compared as Python compares strings. */
  datatype Key = Num(n: real) | Text(s: string)

  /** Python's `<=` on strings: code point by code point, a prefix first. */
  predicate LexLe(a: string, b: string)
  {
    a == [] || (b != [] && (a[0] < b[0] || (a[0] == b[0] && LexLe(a[1..], b[1..]))))
  }

  lemma {:induction false} LexTotal(a: string, b: string)
    ensures LexLe(a, b) || LexLe(b, a)
    ensures LexLe(a, b) && LexLe(b, a) ==> a == b
  {
    if a != [] && b != [] && a[0] == b[0] {
      LexTotal(a[1..], b[1..]);
      assert a == [a[0]] + a[1..] && b == [b[0]] + b[1..];
    }
  }

  lemma {:induction false} LexTrans(a: string, b: string, c: string)
    requires LexLe(a, b) && LexLe(b, c)
    ensures LexLe(a, c)
  {
    if a != [] && b != [] && c != [] && a[0] == b[0] && b[0] == c[0] {
      LexTrans(a[1..], b[1..], c[1..]);
    }
  }

  /** The order on keys; numbers come before texts (a criterion's keys are all of one kind). */
  predicate KeyLe(a: Key, b: Key)
  {
    match (a, b)
    case (Num(x), Num(y)) => x <= y
    case (Text(x), Text(y)) => LexLe(x, y)
    case (Num(_), Text(_)) => true
    case (Text(_), Num(_)) => false
  }

  /** The key order is a total order. */
  lemma KeyOrder(a: Key, b: Key, c: Key)
    ensures KeyLe(a, a)
    ensures KeyLe(a, b) || KeyLe(b, a)
    ensures KeyLe(a, b) && KeyLe(b, a) ==> a == b
    ensures KeyLe(a, b) && KeyLe(b, c) ==> KeyLe(a, c)
  {
    if a.Text? && b.Text? {
      LexTotal(a.s, b.s);
      LexTotal(a.s, a.s);
      if c.Text? && KeyLe(a, b) && KeyLe(b, c) {
        LexTrans(a.s, b.s, c.s);
      }
    } else if a.Text? {
      LexTotal(a.s, a.s);
    }
  }

  /** Whether `a` may come before `b` when sorting by `key`, descending for `reverse`. */
  predicate Ord<T>(a: T, b: T, key: T -> Key, reverse: bool)
  {
    if reverse then KeyLe(key(b), key(a)) else KeyLe(key(a), key(b))
  }

  lemma OrdFacts<T>(a: T, b: T, c: T, key: T -> Key, reverse: bool)
    ensures Ord(a, a, key, reverse)
    ensures Ord(a, b, key, reverse) || Ord(b, a, key, reverse)
    ensures Ord(a, b, key, reverse) && Ord(b, c, key, reverse) ==> Ord(a, c, key, reverse)
    ensures key(a) == key(b) ==> Ord(a, b, key, reverse)
  {
    KeyOrder(key(a), key(b), key(c));
    KeyOrder(key(c), key(b), key(a));
  }

  predicate SortedBy<T>(s: seq<T>, key: T -> Key, reverse: bool)
  {
    forall i, j :: 0 <= i < j < |s| ==> Ord(s[i], s[j], key, reverse)
  }

  // ----- a stable sort -----

  /** Insert `x` after every element that may precede it. */
  function Insert<T>(x: T, s: seq<T>, key: T -> Key, reverse: bool): (r: seq<T>)
    ensures multiset(r) == multiset(s) + multiset{x}
    ensures |r| == |s| + 1
  {
    if s == [] || !Ord(s[0], x, key, reverse) then [x] + s
    else
      assert s == [s[0]] + s[1..];
      [s[0]] + Insert(x, s[1..], key, reverse)
  }

  /** `list.sort(key=key, reverse=reverse)`, as a stable insertion sort from the front. */
  function Sort<T>(s: seq<T>, key: T -> Key, reverse: bool): (r: seq<T>)
    ensures multiset(r) == multiset(s) && |r| == |s|
    decreases |s|
  {
    if s == [] then []
    else
      assert s == s[..|s| - 1] + [s[|s| - 1]];
      Insert(s[|s| - 1], Sort(s[..|s| - 1], key, reverse), key, reverse)
  }

  lemma {:induction false} InsertSorted<T>(x: T, s: seq<T>, key: T -> Key, reverse: bool)
    requires SortedBy(s, key, reverse)
    ensures SortedBy(Insert(x, s, key, reverse), key, reverse)
    decreases |s|
  {
    var r := Insert(x, s, key, reverse);
    if s == [] {
    } else if !Ord(s[0], x, key, reverse) {
      OrdFacts(s[0], x, x, key, reverse);
      forall i, j | 0 <= i < j < |r| ensures Ord(r[i], r[j], key, reverse) {
        if i == 0 {
          OrdFacts(x, s[0], s[j - 1], key, reverse);
        }
      }
    } else {
      InsertSorted(x, s[1..], key, reverse);
      var rest := Insert(x, s[1..], key, reverse);
      assert multiset(rest) == multiset(s[1..]) + multiset{x};
      forall i, j | 0 <= i < j < |r| ensures Ord(r[i], r[j], key, reverse) {
        if i == 0 {
          assert r[j] in multiset(rest);
          assert r[j] in s[1..] || r[j] == x;
          if r[j] != x {
            var m :| 0 <= m < |s[1..]| && s[1..][m] == r[j];
            assert Ord(s[0], s[m + 1], key, reverse);
          }
        }
      }
    }
  }

  /** The sort orders its result. */
  lemma {:induction false} SortSorted<T>(s: seq<T>, key: T -> Key, reverse: bool)
    ensures SortedBy(Sort(s, key, reverse), key, reverse)
    decreases |s|
  {
    if s != [] {
      SortSorted(s[..|s| - 1], key, reverse);
      InsertSorted(s[|s| - 1], Sort(s[..|s| - 1], key, reverse), key, reverse);
    }
  }

  /** The elements whose key is `k`, in order. */
  function WithKey<T>(s: seq<T>, key: T -> Key, k: Key): (r: seq<T>)
    ensures |r| <= |s|
  {
    if s == [] then []
    else (if key(s[0]) == k then [s[0]] else []) + WithKey(s[1..], key, k)
  }

  lemma {:induction false} WithKeyAppend<T>(a: seq<T>, b: seq<T>, key: T -> Key, k: Key)
    ensures WithKey(a + b, key, k) == WithKey(a, key, k) + WithKey(b, key, k)
    decreases |a|
  {
    if a == [] {
      assert a + b == b;
    } else {
      var ab := a + b;
      assert ab[0] == a[0] && ab[1..] == a[1..] + b;
      var head := if key(a[0]) == k then [a[0]] else [];
      assert WithKey(ab, key, k) == head + WithKey(a[1..] + b, key, k);
      WithKeyAppend(a[1..], b, key, k);
      assert WithKey(a, key, k) == head + WithKey(a[1..], key, k);
    }
  }

  /** Inserting into a sorted sequence puts `x` behind every element with its key. */
  lemma {:induction false} InsertStable<T>(x: T, s: seq<T>, key: T -> Key, reverse: bool, k: Key)
    requires SortedBy(s, key, reverse)
    ensures WithKey(Insert(x, s, key, reverse), key, k) == WithKey(s, key, k) + WithKey([x], key, k)
    decreases |s|
  {
    if s == [] {
      assert Insert(x, s, key, reverse) == [x];
    } else if !Ord(s[0], x, key, reverse) {
      InsertFront(x, s, key, reverse, k);
    } else {
      var rest := Insert(x, s[1..], key, reverse);
      assert SortedBy(s[1..], key, reverse);
      InsertStable(x, s[1..], key, reverse, k);
      InsertBehind(x, s, key, reverse, k);
    }
  }

  lemma InsertFront<T>(x: T, s: seq<T>, key: T -> Key, reverse: bool, k: Key)
    requires s != [] && SortedBy(s, key, reverse) && !Ord(s[0], x, key, reverse)
    ensures WithKey(Insert(x, s, key, reverse), key, k) == WithKey(s, key, k) + WithKey([x], key, k)
  {
    assert Insert(x, s, key, reverse) == [x] + s;
    WithKeyAppend([x], s, key, k);
    WithKeyOne(x, key, k);
    if key(x) == k {
      NoneWithKey(x, s, key, reverse);
    }
  }

  lemma InsertBehind<T>(x: T, s: seq<T>, key: T -> Key, reverse: bool, k: Key)
    requires s != [] && Ord(s[0], x, key, reverse)
    requires WithKey(Insert(x, s[1..], key, reverse), key, k) == WithKey(s[1..], key, k) + WithKey([x], key, k)
    ensures WithKey(Insert(x, s, key, reverse), key, k) == WithKey(s, key, k) + WithKey([x], key, k)
  {
    InsertHead(x, s, key, reverse);
    KeepHead(x, s, Insert(x, s, key, reverse), Insert(x, s[1..], key, reverse), key, k);
  }

  /** A sequence that keeps the head of `s` and continues with `rest`. */
  lemma KeepHead<T>(x: T, s: seq<T>, r: seq<T>, rest: seq<T>, key: T -> Key, k: Key)
    requires s != [] && r != [] && r[0] == s[0] && r[1..] == rest
    requires WithKey(rest, key, k) == WithKey(s[1..], key, k) + WithKey([x], key, k)
    ensures WithKey(r, key, k) == WithKey(s, key, k) + WithKey([x], key, k)
  {
    WithKeyHead(r, key, k);
    WithKeyHead(s, key, k);
    var h, tail, last := WithKey([s[0]], key, k), WithKey(s[1..], key, k), WithKey([x], key, k);
    assert h + (tail + last) == (h + tail) + last;
  }

  lemma InsertHead<T>(x: T, s: seq<T>, key: T -> Key, reverse: bool)
    requires s != [] && Ord(s[0], x, key, reverse)
    ensures var r := Insert(x, s, key, reverse); r[0] == s[0] && r[1..] == Insert(x, s[1..], key, reverse)
  {
    assert Insert(x, s, key, reverse) == [s[0]] + Insert(x, s[1..], key, reverse);
  }

  lemma WithKeyHead<T>(s: seq<T>, key: T -> Key, k: Key)
    requires s != []
    ensures WithKey(s, key, k) == WithKey([s[0]], key, k) + WithKey(s[1..], key, k)
  {
    WithKeyOne(s[0], key, k);
  }

  lemma WithKeyOne<T>(x: T, key: T -> Key, k: Key)
    ensures WithKey([x], key, k) == if key(x) == k then [x] else []
  {
    assert [x][1..] == [];
  }

  /** No element of a sorted sequence whose head must follow `x` has `x`'s key. */
  lemma NoneWithKey<T>(x: T, s: seq<T>, key: T -> Key, reverse: bool)
    requires s != [] && SortedBy(s, key, reverse) && !Ord(s[0], x, key, reverse)
    ensures WithKey(s, key, key(x)) == []
  {
    forall i | 0 <= i < |s| ensures key(s[i]) != key(x) {
      if i > 0 {
        OrdFacts(s[0], s[i], x, key, reverse);
      }
      OrdFacts(s[i], x, x, key, reverse);
    }
    NoKeyNoneKept(s, key, key(x));
  }

  lemma {:induction false} NoKeyNoneKept<T>(s: seq<T>, key: T -> Key, k: Key)
    requires forall i :: 0 <= i < |s| ==> key(s[i]) != k
    ensures WithKey(s, key, k) == []
    decreases |s|
  {
    if s != [] {
      NoKeyNoneKept(s[1..], key, k);
    }
  }

  /** The sort is stable: the elements of any one key keep their order. */
  lemma {:induction false} SortStable<T>(s: seq<T>, key: T -> Key, reverse: bool, k: Key)
    ensures WithKey(Sort(s, key, reverse), key, k) == WithKey(s, key, k)
    decreases |s|
  {
    if s != [] {
      var init, last := s[..|s| - 1], s[|s| - 1];
      SortStable(init, key, reverse, k);
      SortSorted(init, key, reverse);
      InsertStable(last, Sort(init, key, reverse), key, reverse, k);
      assert s == init + [last];
      WithKeyAppend(init, [last], key, k);
    }
  }

  // ----- several criteria -----

  /** A sort criterion: a button's state and the key it sorts by. */
  datatype Criterion<!T> = Criterion(order: SortState, key: T -> Key)

  /** `[(order, key) for order, key in criteria if order != 0]`. */
  function Active<T>(criteria: seq<Criterion<T>>): (r: seq<Criterion<T>>)
    ensures forall i :: 0 <= i < |r| ==> r[i].order != Off
    ensures |r| <= |criteria|
  {
    if criteria == [] then []
    else (if criteria[0].order != Off then [criteria[0]] else []) + Active(criteria[1..])
  }

  /** One `list.sort` with a criterion: `reverse` for an up arrow. */
  function SortWith<T>(s: seq<T>, c: Criterion<T>): seq<T>
  {
    Sort(s, c.key, c.order == Up)
  }

  /** Sorting by the last criterion first and the first criterion last. */
  function SortAll<T>(s: seq<T>, cs: seq<Criterion<T>>): (r: seq<T>)
    ensures multiset(r) == multiset(s)
  {
    if cs == [] then s else SortWith(SortAll(s, cs[1..]), cs[0])
  }

  /** `a` may precede `b` under the criteria taken as a lexicographic key, the first one primary. */
  predicate LexOrd<T>(a: T, b: T, cs: seq<Criterion<T>>)
  {
    cs == [] ||
    (Ord(a, b, cs[0].key, cs[0].order == Up) && (cs[0].key(a) == cs[0].key(b) ==> LexOrd(a, b, cs[1..])))
  }

  /** `__sort_items`: the active criteria applied in reverse, each a stable sort of the rows. */
  method SortItems<T>(rows: seq<T>, criteria: seq<Criterion<T>>) returns (sorted: seq<T>)
    ensures sorted == SortAll(rows, Active(criteria))
    ensures multiset(sorted) == multiset(rows)
    ensures forall i, j :: 0 <= i < j < |sorted| ==> LexOrd(sorted[i], sorted[j], Active(criteria))
  {
    var active := Active(criteria);
    sorted := rows;
    var k := |active|;
    while k > 0
      invariant 0 <= k <= |active|
      invariant sorted == SortAll(rows, active[k..])
    {
      k := k - 1;
      assert active[k..][1..] == active[k + 1..];
      sorted := SortWith(sorted, active[k]);
    }
    assert active[0..] == active;
    SortAllLexicographic(rows, active);
  }

  /** The sequence keeps a pairwise relation between every earlier and later element. */
  predicate Pairwise<T>(s: seq<T>, cs: seq<Criterion<T>>)
  {
    forall i, j :: 0 <= i < j < |s| ==> LexOrd(s[i], s[j], cs)
  }

  /** Sorting in reverse order of the criteria orders lexicographically, the first criterion primary. */
  lemma {:induction false} SortAllLexicographic<T>(s: seq<T>, cs: seq<Criterion<T>>)
    ensures Pairwise(SortAll(s, cs), cs)
    decreases |cs|
  {
    if cs != [] {
      var u := SortAll(s, cs[1..]);
      SortAllLexicographic(s, cs[1..]);
      var c := cs[0];
      var t := Sort(u, c.key, c.order == Up);
      SortSorted(u, c.key, c.order == Up);
      forall i, j | 0 <= i < j < |t| ensures LexOrd(t[i], t[j], cs) {
        if c.key(t[i]) == c.key(t[j]) {
          KeptInOrder(u, t, c.key, c.order == Up, cs[1..], i, j);
        }
      }
    }
  }

  /** Two elements of one key in the stably sorted `t` relate as they did in `u`. */
  lemma KeptInOrder<T>(u: seq<T>, t: seq<T>, key: T -> Key, reverse: bool, cs: seq<Criterion<T>>, i: nat, j: nat)
    requires t == Sort(u, key, reverse) && Pairwise(u, cs)
    requires i < j < |t| && key(t[i]) == key(t[j])
    ensures LexOrd(t[i], t[j], cs)
  {
    var k := key(t[i]);
    SortStable(u, key, reverse, k);
    var i', j' := KeptPositions(t, key, k, i, j);
    PairwiseWithKey(u, key, k, cs);
  }

  /** Keeping the elements of one key preserves a pairwise relation. */
  lemma {:induction false} PairwiseWithKey<T>(u: seq<T>, key: T -> Key, k: Key, cs: seq<Criterion<T>>)
    requires Pairwise(u, cs)
    ensures Pairwise(WithKey(u, key, k), cs)
    decreases |u|
  {
    if u != [] {
      var rest := WithKey(u[1..], key, k);
      PairwiseWithKey(u[1..], key, k, cs);
      assert Pairwise(u[1..], cs);
      if key(u[0]) == k {
        var w := [u[0]] + rest;
        forall i, j | 0 <= i < j < |w| ensures LexOrd(w[i], w[j], cs) {
          if i == 0 {
            var m := KeptFrom(u[1..], key, k, j - 1);
            assert w[j] == u[m + 1];
          } else {
            assert w[i] == rest[i - 1] && w[j] == rest[j - 1];
          }
        }
      }
    }
  }

  /** Every kept element comes from some position of the original. */
  lemma {:induction false} KeptFrom<T>(s: seq<T>, key: T -> Key, k: Key, p: nat) returns (m: nat)
    requires p < |WithKey(s, key, k)|
    ensures m < |s| && s[m] == WithKey(s, key, k)[p]
    decreases |s|
  {
    if key(s[0]) == k {
      if p == 0 {
        m := 0;
      } else {
        m := KeptFrom(s[1..], key, k, p - 1);
        m := m + 1;
      }
    } else {
      m := KeptFrom(s[1..], key, k, p);
      m := m + 1;
    }
  }

  /** Two elements of one key at positions `i < j` sit at positions `i' < j'` of the kept sequence. */
  lemma {:induction false} KeptPositions<T>(t: seq<T>, key: T -> Key, k: Key, i: nat, j: nat) returns (i': nat, j': nat)
    requires i < j < |t| && key(t[i]) == k && key(t[j]) == k
    ensures i' < j' < |WithKey(t, key, k)|
    ensures WithKey(t, key, k)[i'] == t[i] && WithKey(t, key, k)[j'] == t[j]
    decreases |t|
  {
    var w := WithKey(t, key, k);
    if i == 0 {
      i' := 0;
      var p := KeptAt(t[1..], key, k, j - 1);
      j' := p + 1;
    } else {
      var a, b := KeptPositions(t[1..], key, k, i - 1, j - 1);
      var shift := if key(t[0]) == k then 1 else 0;
      i', j' := a + shift, b + shift;
    }
  }

  /** An element with the key at position `j` sits at some position of the kept sequence. */
  lemma {:induction false} KeptAt<T>(t: seq<T>, key: T -> Key, k: Key, j: nat) returns (p: nat)
    requires j < |t| && key(t[j]) == k
    ensures p < |WithKey(t, key, k)| && WithKey(t, key, k)[p] == t[j]
    decreases |t|
  {
    if j == 0 {
      p := 0;
    } else {
      var q := KeptAt(t[1..], key, k, j - 1);
      p := q + if key(t[0]) == k then 1 else 0;
    }
  }
}
