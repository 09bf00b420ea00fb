/**
 * Total orders, strictly sorted lists, and maps rendered in key order.
 *
 * `sets.List` and the two `sortMap` helpers of the converter all enumerate a finite set of keys
 * in increasing order; `SortedList` is that enumeration, and the uniqueness lemmas say that a
 * strictly sorted list is determined by its elements.
 */
module Ordering {

  ghost predicate TotalOrder<K(!new)>(le: (K, K) -> bool) {
    && (forall a :: le(a, a))
    && (forall a, b :: le(a, b) && le(b, a) ==> a == b)
    && (forall a, b, c :: le(a, b) && le(b, c) ==> le(a, c))
    && (forall a, b :: le(a, b) || le(b, a))
  }

  function Elems<K>(s: seq<K>): (r: set<K>) {
    set x | x in s
  }

  /** Strictly increasing, hence free of duplicates. */
  ghost predicate Sorted<K>(s: seq<K>, le: (K, K) -> bool) {
    forall i, j | 0 <= i < j < |s| :: le(s[i], s[j]) && s[i] != s[j]
  }

  /** Strictly increasing in the key of each element. */
  ghost predicate KeySorted<K, T>(s: seq<T>, key: T -> K, le: (K, K) -> bool) {
    forall i, j | 0 <= i < j < |s| :: le(key(s[i]), key(s[j])) && key(s[i]) != key(s[j])
  }

  lemma LeastExists<K(!new)>(s: set<K>, le: (K, K) -> bool)
    requires TotalOrder(le) && s != {}
    ensures exists x :: x in s && forall y | y in s :: le(x, y)
  {
    var x :| x in s;
    var rest := s - {x};
    if rest == {} {
      assert s == {x};
    } else {
      LeastExists(rest, le);
      var m :| m in rest && forall y | y in rest :: le(m, y);
      var l := if le(x, m) then x else m;
      assert l in s && forall y | y in s :: le(l, y) by {
        forall y | y in s ensures le(l, y) {
          if y != x { assert y in rest; }
        }
      }
    }
  }

  function Least<K(!new, ==)>(s: set<K>, le: (K, K) -> bool): (x: K)
    requires TotalOrder(le) && s != {}
    ensures x in s && forall y | y in s :: le(x, y)
  {
    LeastExists(s, le);
    var x :| x in s && forall y | y in s :: le(x, y);
    x
  }

  function SortedList<K(!new, ==)>(s: set<K>, le: (K, K) -> bool): (r: seq<K>)
    requires TotalOrder(le)
    ensures Sorted(r, le)
    ensures Elems(r) == s
    decreases s
  {
    if s == {} then []
    else
      var x := Least(s, le);
      var rest := SortedList(s - {x}, le);
      assert forall y | y in rest :: y in Elems(rest);
      assert forall y :: y in [x] + rest <==> y == x || y in rest;
      assert forall y :: y in s <==> y == x || y in Elems(rest);
      [x] + rest
  }

  lemma SameElemsEmpty<K(!new)>(a: seq<K>, b: seq<K>)
    requires forall x :: x in a <==> x in b
    ensures a == [] <==> b == []
  {
    if a != [] { assert a[0] in a; }
    if b != [] { assert b[0] in b; }
  }

  /** A strictly sorted list is determined by its elements. */
  lemma {:induction false} SortedUnique<K(!new)>(a: seq<K>, b: seq<K>, le: (K, K) -> bool)
    requires TotalOrder(le) && Sorted(a, le) && Sorted(b, le)
    requires forall x :: x in a <==> x in b
    ensures a == b
  {
    SameElemsEmpty(a, b);
    if a != [] {
      assert a[0] in b && b[0] in a;
      assert a[0] == b[0];
      forall x ensures x in a[1..] <==> x in b[1..] {
        assert x in a <==> x == a[0] || x in a[1..];
        assert x in b <==> x == b[0] || x in b[1..];
      }
      SortedUnique(a[1..], b[1..], le);
      assert a == [a[0]] + a[1..] && b == [b[0]] + b[1..];
    }
  }

  ghost function Keys<K, T>(s: seq<T>, key: T -> K): (r: seq<K>) {
    seq(|s|, i requires 0 <= i < |s| => key(s[i]))
  }

  lemma KeyMember<K, T>(s: seq<T>, key: T -> K, k: K)
    ensures k in Keys(s, key) <==> exists x :: x in s && key(x) == k
  {
    var ks := Keys(s, key);
    if k in ks { var i :| 0 <= i < |ks| && ks[i] == k; assert s[i] in s; }
    if x :| x in s && key(x) == k { var i :| 0 <= i < |s| && s[i] == x; assert ks[i] == k; }
  }

  /** Lists strictly sorted by key that have the same keys have them at the same places. */
  lemma KeysUnique<K(!new), T>(a: seq<T>, b: seq<T>, key: T -> K, le: (K, K) -> bool)
    requires TotalOrder(le) && KeySorted(a, key, le) && KeySorted(b, key, le)
    requires forall k :: k in Keys(a, key) <==> k in Keys(b, key)
    ensures |a| == |b| && forall i | 0 <= i < |a| :: key(a[i]) == key(b[i])
  {
    var ka, kb := Keys(a, key), Keys(b, key);
    SortedUnique(ka, kb, le);
    forall i | 0 <= i < |a| ensures key(a[i]) == key(b[i]) { assert ka[i] == kb[i]; }
  }

  /** A list strictly sorted by key is determined by its elements. */
  lemma KeySortedUnique<K(!new), T>(a: seq<T>, b: seq<T>, key: T -> K, le: (K, K) -> bool)
    requires TotalOrder(le) && KeySorted(a, key, le) && KeySorted(b, key, le)
    requires forall x :: x in a <==> x in b
    ensures a == b
  {
    hide TotalOrder, Keys;
    forall k ensures k in Keys(a, key) <==> k in Keys(b, key) { KeyMember(a, key, k); KeyMember(b, key, k); }
    KeysUnique(a, b, key, le);
    forall i | 0 <= i < |a| ensures a[i] == b[i] {
      assert a[i] in b;
      var j :| 0 <= j < |b| && b[j] == a[i];
    }
  }

  /** The values of a map, in increasing order of their keys. */
  function SortMap<K(!new, ==), T>(m: map<K, T>, le: (K, K) -> bool): (r: seq<T>)
    requires TotalOrder(le)
    ensures |r| == |SortedList(m.Keys, le)|
    ensures forall x | x in r :: exists k :: k in m && m[k] == x
    ensures forall k | k in m :: m[k] in r
  {
    var ks := SortedList(m.Keys, le);
    assert forall k :: k in ks <==> k in Elems(ks);
    var r := seq(|ks|, i requires 0 <= i < |ks| => assert ks[i] in Elems(ks); m[ks[i]]);
    assert forall k | k in m :: m[k] in r by {
      forall k | k in m ensures m[k] in r {
        var i :| 0 <= i < |ks| && ks[i] == k;
        assert r[i] == m[k];
      }
    }
    r
  }

  lemma SortMapKeySorted<K(!new), T>(m: map<K, T>, key: T -> K, le: (K, K) -> bool)
    requires TotalOrder(le)
    requires forall k | k in m :: key(m[k]) == k
    ensures KeySorted(SortMap(m, le), key, le)
  {
    var ks := SortedList(m.Keys, le);
    var r := SortMap(m, le);
    forall i | 0 <= i < |r| ensures key(r[i]) == ks[i] {
      assert ks[i] in Elems(ks);
    }
  }

  lemma SortMapAt<K(!new), T>(m: map<K, T>, le: (K, K) -> bool, i: nat)
    requires TotalOrder(le) && i < |SortMap(m, le)|
    ensures SortedList(m.Keys, le)[i] in m && SortMap(m, le)[i] == m[SortedList(m.Keys, le)[i]]
  {
    var ks := SortedList(m.Keys, le);
    assert ks[i] in Elems(ks);
  }

  /** Where an element of a doubled list is in the first copy. */
  lemma IndexInFirst<K>(ns: seq<K>, i: nat) returns (k: nat)
    requires i < |ns + ns|
    ensures k < |ns| && k <= i && ns[k] == (ns + ns)[i]
  {
    k := if i < |ns| then i else i - |ns|;
  }

  // ---- the two key types the converter uses

  /** The byte order of Go strings. */
  predicate StrLe(a: string, b: string) {
    a == [] || (b != [] && (a[0] < b[0] || (a[0] == b[0] && StrLe(a[1..], b[1..]))))
  }

  lemma StrLeRefl(a: string)
    ensures StrLe(a, a)
  {}

  lemma StrLeAntisym(a: string, b: string)
    requires StrLe(a, b) && StrLe(b, a)
    ensures a == b
  {
    if a != [] && b != [] {
      StrLeAntisym(a[1..], b[1..]);
      assert a == [a[0]] + a[1..] && b == [b[0]] + b[1..];
    }
  }

  lemma StrLeTrans(a: string, b: string, c: string)
    requires StrLe(a, b) && StrLe(b, c)
    ensures StrLe(a, c)
  {}

  lemma StrLeTotal(a: string, b: string)
    ensures StrLe(a, b) || StrLe(b, a)
  {}

  lemma StrOrder()
    ensures TotalOrder(StrLe)
  {
    forall a ensures StrLe(a, a) { StrLeRefl(a); }
    forall a, b | StrLe(a, b) && StrLe(b, a) ensures a == b { StrLeAntisym(a, b); }
    forall a, b, c | StrLe(a, b) && StrLe(b, c) ensures StrLe(a, c) { StrLeTrans(a, b, c); }
    forall a, b ensures StrLe(a, b) || StrLe(b, a) { StrLeTotal(a, b); }
  }

  /** `a` goes on as `b`, or is smaller where they first differ. */
  ghost predicate Precedes(a: string, b: string) {
    a < b || exists i :: 0 <= i < |a| && i < |b| && a[..i] == b[..i] && a[i] < b[i]
  }

  lemma {:induction false} StrLeExactly(a: string, b: string)
    ensures StrLe(a, b) <==> a == b || Precedes(a, b)
  {
    if a != [] && b != [] && a[0] == b[0] {
      StrLeExactly(a[1..], b[1..]);
      assert a == [a[0]] + a[1..] && b == [b[0]] + b[1..];
      assert a < b <==> a[1..] < b[1..] by { PrefixTail(a, b); }
      if i :| 0 <= i < |a| && i < |b| && a[..i] == b[..i] && a[i] < b[i] {
        assert a[1..][..i - 1] == a[..i][1..] == b[..i][1..] == b[1..][..i - 1];
        assert a[1..][i - 1] < b[1..][i - 1];
      }
      if i :| 0 <= i < |a[1..]| && i < |b[1..]| && a[1..][..i] == b[1..][..i] && a[1..][i] < b[1..][i] {
        assert a[..i + 1] == [a[0]] + a[1..][..i] == b[..i + 1];
      }
    } else if a != [] && b != [] {
      if a[0] < b[0] { assert a[..0] == b[..0]; }
      forall i | 0 < i < |a| && i < |b| ensures a[..i] != b[..i] { assert a[..i][0] == a[0] && b[..i][0] == b[0]; }
    }
  }

  lemma PrefixTail(a: string, b: string)
    requires a != [] && b != [] && a[0] == b[0]
    ensures a < b <==> a[1..] < b[1..]
  {
    if a <= b { assert a[1..] == b[..|a|][1..] == b[1..][..|a| - 1]; }
    if a[1..] <= b[1..] { assert a == [a[0]] + a[1..] == [b[0]] + b[1..][..|a| - 1] == b[..|a|]; }
  }

  predicate NatLe(a: nat, b: nat) { a <= b }

  ghost predicate StrSorted(s: seq<string>) { Sorted(s, StrLe) }

  /** `sets.List(sets.New(...))`: the distinct strings of `s` in increasing order. */
  function SortStrings(s: set<string>): (r: seq<string>)
    ensures StrSorted(r) && Elems(r) == s
    ensures forall x :: x in r <==> x in s
  {
    StrOrder();
    var r := SortedList(s, StrLe);
    assert forall x :: x in r <==> x in Elems(r);
    r
  }

  lemma SortStringsUnique(a: seq<string>, b: seq<string>)
    requires StrSorted(a) && StrSorted(b)
    requires forall x :: x in a <==> x in b
    ensures a == b
  {
    StrOrder();
    SortedUnique(a, b, StrLe);
  }

  function SortByName<T>(m: map<string, T>): (r: seq<T>)
    ensures forall x | x in r :: exists k :: k in m && m[k] == x
    ensures forall k | k in m :: m[k] in r
  {
    StrOrder();
    SortMap(m, StrLe)
  }

  ghost predicate NameSorted<T>(s: seq<T>, key: T -> string) { KeySorted(s, key, StrLe) }

  lemma SortByNameSorted<T>(m: map<string, T>, key: T -> string)
    requires forall k | k in m :: key(m[k]) == k
    ensures NameSorted(SortByName(m), key)
  {
    StrOrder();
    SortMapKeySorted(m, key, StrLe);
  }

  lemma NothingToSort<T>()
    ensures SortByName<T>(map[]) == []
  {
    var none: map<string, T> := map[];
    assert none.Keys == {};
  }

  lemma SortByNameLength<T>(m: map<string, T>)
    ensures |SortByName(m)| == |SortStrings(m.Keys)|
  {
    StrOrder();
  }

  /** Maps with the same keys are listed in the same order: that of the sorted keys. */
  lemma SortByNameAt<T>(m: map<string, T>, i: nat)
    requires i < |SortByName(m)| == |SortStrings(m.Keys)|
    ensures SortStrings(m.Keys)[i] in m && SortByName(m)[i] == m[SortStrings(m.Keys)[i]]
  {
    hide StrLe, TotalOrder;
    StrOrder();
    SortMapAt(m, StrLe, i);
  }

  /** `xs` are the values of `m`, in the order of their names. */
  ghost predicate ListsByName<T>(xs: seq<T>, m: map<string, T>) {
    && |xs| == |SortStrings(m.Keys)|
    && forall i | 0 <= i < |xs| :: SortStrings(m.Keys)[i] in m && xs[i] == m[SortStrings(m.Keys)[i]]
  }

  lemma SortByNameLists<T>(m: map<string, T>)
    ensures ListsByName(SortByName(m), m)
  {
    hide SortByName, SortStrings;
    SortByNameLength(m);
    forall i | 0 <= i < |SortByName(m)|
      ensures SortStrings(m.Keys)[i] in m && SortByName(m)[i] == m[SortStrings(m.Keys)[i]] {
      SortByNameAt(m, i);
    }
  }

  lemma ListedSame<T>(xs: seq<T>, a: map<string, T>, b: map<string, T>)
    requires ListsByName(xs, a) && ListsByName(xs, b) && a.Keys == b.Keys
    ensures a == b
  {
    hide SortStrings;
    var names := SortStrings(a.Keys);
    forall k | k in a ensures a[k] == b[k] {
      assert k in names;
      var i :| 0 <= i < |names| && names[i] == k;
      assert xs[i] == a[k] && xs[i] == b[k];
    }
  }

  lemma SortByNameDistinct<T>(m: map<string, T>)
    requires forall k, l | k in m && l in m && m[k] == m[l] :: k == l
    ensures forall i, j | 0 <= i < j < |SortByName(m)| :: SortByName(m)[i] != SortByName(m)[j]
  {
    hide StrLe, SortByName, TotalOrder, SortStrings;
    StrOrder();
    SortByNameLength(m);
    var names := SortStrings(m.Keys);
    forall i, j | 0 <= i < j < |SortByName(m)| ensures SortByName(m)[i] != SortByName(m)[j] {
      SortByNameAt(m, i);
      SortByNameAt(m, j);
      assert names[i] != names[j];
    }
  }

  lemma NameSortedUnique<T>(a: seq<T>, b: seq<T>, key: T -> string)
    requires NameSorted(a, key) && NameSorted(b, key)
    requires forall x :: x in a <==> x in b
    ensures a == b
  {
    StrOrder();
    KeySortedUnique(a, b, key, StrLe);
  }

  lemma NamesUnique<T>(a: seq<T>, b: seq<T>, key: T -> string)
    requires NameSorted(a, key) && NameSorted(b, key)
    requires forall k :: k in Keys(a, key) <==> k in Keys(b, key)
    ensures |a| == |b| && forall i | 0 <= i < |a| :: key(a[i]) == key(b[i])
  {
    StrOrder();
    KeysUnique(a, b, key, StrLe);
  }

  function SortByNumber<T>(m: map<nat, T>): (r: seq<T>)
    ensures forall x | x in r :: exists k :: k in m && m[k] == x
    ensures forall k | k in m :: m[k] in r
  {
    SortMap(m, NatLe)
  }

  ghost predicate NumberSorted<T>(s: seq<T>, key: T -> nat) { KeySorted(s, key, NatLe) }

  lemma SortByNumberSorted<T>(m: map<nat, T>, key: T -> nat)
    requires forall k | k in m :: key(m[k]) == k
    ensures NumberSorted(SortByNumber(m), key)
  {
    SortMapKeySorted(m, key, NatLe);
  }

  lemma NumberSortedUnique<T>(a: seq<T>, b: seq<T>, key: T -> nat)
    requires NumberSorted(a, key) && NumberSorted(b, key)
    requires forall x :: x in a <==> x in b
    ensures a == b
  {
    KeySortedUnique(a, b, key, NatLe);
  }
}
