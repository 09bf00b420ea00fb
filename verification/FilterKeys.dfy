/**
 * Incoming filters are identified by a key that is the prefix and the two lengths written without
 * separators.  When that loses nothing, and when it does.
 */
module FilterKeys {
  import opened Ordering
  import opened Decimal
  import opened Configs
  import opened Merge
  import opened Facts
  import opened MergeFacts
  import opened Translate

  // ---- what is accepted

  /** The routes a neighbor may send, for any notion of a filter matching a route. */
  ghost predicate AcceptsRoute<R(!new)>(i: AllowedIn, matches: (Filter, R) -> bool, route: R) {
    i.all || exists v6, x :: x in Filters(i, v6) && matches(x, route)
  }

  /** No two different filters of the two lists share a key. */
  ghost predicate NoCollision(r: AllowedIn, t: AllowedIn) { KeysAgree(r, r) && KeysAgree(r, t) && KeysAgree(t, t) }

  ghost predicate Listed(r: AllowedIn, t: AllowedIn, v6: bool, x: Filter) { x in Filters(r, v6) || x in Filters(t, v6) }

  /** Merging keeps exactly the listed filters if and only if no two different ones share a key. */
  lemma FiltersKeptIffNoCollision(r: AllowedIn, t: AllowedIn)
    requires !r.all && !t.all
    ensures (forall v6, x :: x in Filters(MergeAllowedIn(r, t), v6) <==> Listed(r, t, v6, x)) <==> NoCollision(r, t)
  {
    hide FilterKey, MergeFilters, NoCollision;
    var m := MergeAllowedIn(r, t);
    MergeAllowedInFacts(r, t);
    if NoCollision(r, t) {
      forall v6, x ensures x in Filters(m, v6) <==> Listed(r, t, v6, x) {
        if Listed(r, t, v6, x) { NothingLost(r, t, v6, x); }
      }
    } else {
      var v6, x := Lost(r, t);
      assert Listed(r, t, v6, x) && x !in Filters(m, v6);
    }
  }

  lemma NothingLost(r: AllowedIn, t: AllowedIn, v6: bool, x: Filter)
    requires NoCollision(r, t) && !r.all && !t.all && Listed(r, t, v6, x)
    ensures x in Filters(MergeAllowedIn(r, t), v6)
  {
    hide FilterKey, MergeFilters, KeysAgree;
    MergeAllowedInKeeps(r, t, v6, x);
  }

  ghost predicate Collide(r: AllowedIn, t: AllowedIn, v6: bool, x: Filter, y: Filter) {
    Listed(r, t, v6, x) && Listed(r, t, v6, y) && FilterKey(x) == FilterKey(y) && x != y
  }

  lemma Collision(r: AllowedIn, t: AllowedIn) returns (v6: bool, x: Filter, y: Filter)
    requires !NoCollision(r, t)
    ensures Collide(r, t, v6, x, y)
  {
    hide FilterKey;
    if !KeysAgree(r, r) {
      v6, x, y :| x in Filters(r, v6) && y in Filters(r, v6) && !(FilterKey(x) == FilterKey(y) ==> x == y);
    } else if !KeysAgree(r, t) {
      v6, x, y :| x in Filters(r, v6) && y in Filters(t, v6) && !(FilterKey(x) == FilterKey(y) ==> x == y);
    } else {
      v6, x, y :| x in Filters(t, v6) && y in Filters(t, v6) && !(FilterKey(x) == FilterKey(y) ==> x == y);
    }
  }

  /** Of two filters that share a key, one is dropped. */
  lemma Lost(r: AllowedIn, t: AllowedIn) returns (v6: bool, x: Filter)
    requires !NoCollision(r, t) && !r.all && !t.all
    ensures Listed(r, t, v6, x) && x !in Filters(MergeAllowedIn(r, t), v6)
  {
    hide FilterKey, MergeFilters, NoCollision, NameSorted;
    var a, b;
    v6, a, b := Collision(r, t);
    MergeFiltersFacts(Filters(r, v6), Filters(t, v6));
    var kept := MergeFilters(Filters(r, v6), Filters(t, v6));
    if a in kept { OneOfKey(kept, a, b); x := b; } else { x := a; }
  }

  lemma OneOfKey(s: seq<Filter>, a: Filter, b: Filter)
    requires NameSorted(s, FilterKey) && a in s && FilterKey(a) == FilterKey(b) && a != b
    ensures b !in s
  {
    hide FilterKey, StrLe;
    var i :| 0 <= i < |s| && s[i] == a;
    forall j | 0 <= j < |s| ensures s[j] != b {}
  }

  /** The merged neighbor accepts what either accepted, and accept-all absorbs everything. */
  lemma AcceptsUnion<R(!new)>(r: AllowedIn, t: AllowedIn, matches: (Filter, R) -> bool, route: R)
    requires r.all || t.all || NoCollision(r, t)
    ensures AcceptsRoute(MergeAllowedIn(r, t), matches, route) <==>
              AcceptsRoute(r, matches, route) || AcceptsRoute(t, matches, route)
  {
    hide MergeFilters, NoCollision, Filters;
    var m := MergeAllowedIn(r, t);
    if !r.all && !t.all {
      FiltersKeptIffNoCollision(r, t);
      if v6, x :| Listed(r, t, v6, x) && matches(x, route) { assert x in Filters(m, v6); }
      if v6, x :| x in Filters(m, v6) && matches(x, route) { assert Listed(r, t, v6, x); }
      assert forall v6, x | x in Filters(r, v6) || x in Filters(t, v6) :: Listed(r, t, v6, x);
    }
  }

  // ---- one prefix

  lemma DecLengths()
    ensures forall n: nat | n < 10 :: |Dec(n)| == 1
    ensures forall n: nat | 10 <= n < 100 :: |Dec(n)| == 2
    ensures forall n: nat | 100 <= n < 1000 :: |Dec(n)| == 3
    ensures Dec(100) == "100"
  {
    assert Dec(1) == "1" && Dec(10) == "10";
    forall n: nat | 100 <= n < 1000 ensures |Dec(n)| == 3 { assert |Dec(n / 10)| == 2; }
  }

  /** Two numbers written one after the other, as one number. */
  lemma PairValue(l: nat, g: nat)
    ensures var s := Dec(l) + Dec(g);
            && (|Dec(g)| == 1 ==> Value(s) == 10 * l + g)
            && (|Dec(g)| == 2 ==> Value(s) == 100 * l + g)
  {
    var s, d := Dec(l) + Dec(g), Dec(g);
    if |d| == 1 {
      assert s[..|s| - 1] == Dec(l) && d[..0] == [];
    } else if |d| == 2 {
      var t := s[..|s| - 1];
      assert t[..|t| - 1] == Dec(l) && d[..1][..0] == [];
    }
  }

  /** What a filter on a prefix of this length may ask for, with lengths up to `limit`. */
  ghost predicate Valid(mask: nat, limit: nat, f: Filter) {
    SelectorLengthsOk(mask, f.le, f.ge) && f.le <= limit && f.ge <= limit
  }

  /** Without a length over 100 the two numbers cannot trade digits. */
  lemma NoTradeShort(mask: nat, f: Filter, g: Filter)
    requires Valid(mask, 100, f) && Valid(mask, 100, g) && Dec(f.le) + Dec(f.ge) == Dec(g.le) + Dec(g.ge)
    ensures |Dec(f.le)| >= |Dec(g.le)|
  {
    hide Dec, Value;
    var s := Dec(f.le) + Dec(f.ge);
    DecLeadingZero(f.le); DecLeadingZero(g.le); DecLeadingZero(f.ge);
    assert s[0] == Dec(f.le)[0] == Dec(g.le)[0];
    DecLengths();
    if f.le > 0 {
      DecLengthMonotone(f.ge, f.le);
      if |Dec(f.le)| == 2 { assert s[2] == Dec(f.ge)[0]; }
    }
    if g.le == 100 { assert s[2] == Dec(g.le)[2]; }
  }

  /** Nor can they on a prefix that leaves no lengths up to 10. */
  lemma NoTradeLong(mask: nat, f: Filter, g: Filter)
    requires mask > 10
    requires Valid(mask, 128, f) && Valid(mask, 128, g) && Dec(f.le) + Dec(f.ge) == Dec(g.le) + Dec(g.ge)
    ensures |Dec(f.le)| >= |Dec(g.le)|
  {
    hide Dec, Value;
    var s := Dec(f.le) + Dec(f.ge);
    DecLeadingZero(f.le); DecLeadingZero(g.le);
    assert s[0] == Dec(f.le)[0] == Dec(g.le)[0];
    DecLengths();
    PairValue(f.le, f.ge); PairValue(g.le, g.ge);
    assert |s| == |Dec(f.le)| + |Dec(f.ge)| == |Dec(g.le)| + |Dec(g.ge)|;
  }

  lemma SameLengths(f: Filter, g: Filter)
    requires Dec(f.le) + Dec(f.ge) == Dec(g.le) + Dec(g.ge) && |Dec(f.le)| == |Dec(g.le)|
    ensures f.le == g.le && f.ge == g.ge
  {
    hide Dec, Value;
    var s, k := Dec(f.le) + Dec(f.ge), |Dec(f.le)|;
    assert s[..k] == Dec(f.le) && s[..k] == Dec(g.le);
    assert s[k..] == Dec(f.ge) && s[k..] == Dec(g.ge);
    DecInjective(f.le, g.le);
    DecInjective(f.ge, g.ge);
  }

  /**
   * For one prefix, lengths that pass validation give every filter its own key, if they stay within
   * 100 or the prefix is longer than 10 bits.
   */
  lemma LengthsInjective(mask: nat, limit: nat, f: Filter, g: Filter)
    requires limit <= 100 || (limit <= 128 && mask > 10)
    requires Valid(mask, limit, f) && Valid(mask, limit, g) && f.prefix == g.prefix && FilterKey(f) == FilterKey(g)
    ensures f.le == g.le && f.ge == g.ge
  {
    hide Dec, Value, SelectorLengthsOk;
    assert FilterKey(f)[|f.prefix|..] == Dec(f.le) + Dec(f.ge);
    assert FilterKey(g)[|f.prefix|..] == Dec(g.le) + Dec(g.ge);
    if limit <= 100 {
      NoTradeShort(mask, f, g); NoTradeShort(mask, g, f);
    } else {
      NoTradeLong(mask, f, g); NoTradeLong(mask, g, f);
    }
    SameLengths(f, g);
  }

  /** Every filter on one prefix of this length, with lengths up to `limit`, has its own key. */
  ghost predicate KeysDiffer(mask: nat, limit: nat) {
    forall f: Filter, g: Filter
      | f.prefix == g.prefix && Valid(mask, limit, f) && Valid(mask, limit, g) && FilterKey(f) == FilterKey(g)
      :: f.le == g.le && f.ge == g.ge
  }

  /** The bounds are exact: they cover every IPv4 selector, and the IPv6 ones on prefixes over 10 bits. */
  lemma KeysDifferExactly(mask: nat, limit: nat)
    requires limit <= 128
    ensures KeysDiffer(mask, limit) <==> limit <= 100 || mask > 10
  {
    hide Dec, FilterKey;
    if limit <= 100 || mask > 10 {
      forall f: Filter, g: Filter
        | f.prefix == g.prefix && Valid(mask, limit, f) && Valid(mask, limit, g) && FilterKey(f) == FilterKey(g)
        ensures f.le == g.le && f.ge == g.ge
      {
        LengthsInjective(mask, limit, f, g);
      }
    } else {
      var f, g := Filter(IPv6, "::/0", 101, 0), Filter(IPv6, "::/0", 10, 10);
      Lengths101(f, g);
      assert Valid(mask, limit, f) && Valid(mask, limit, g);
    }
  }

  lemma Lengths101(f: Filter, g: Filter)
    requires f.prefix == g.prefix && f.le == 101 && f.ge == 0 && g.le == 10 && g.ge == 10
    ensures FilterKey(f) == FilterKey(g)
  {
    assert Dec(1) == "1" && Dec(10) == "10" && Dec(101) == "101" && Dec(0) == "0";
    assert f.prefix + Dec(f.le) + Dec(f.ge) == f.prefix + "1010";
    assert g.prefix + Dec(g.le) + Dec(g.ge) == g.prefix + "1010";
  }

  // ---- two prefixes

  const NARROW := Filter(IPv4, "0.0.0.0/1", 20, 0)
  const WIDE := Filter(IPv4, "0.0.0.0/12", 0, 0)

  /** Two prefixes can share a key with ordinary lengths, and then one filter is lost. */
  lemma PrefixesCollide()
    ensures FilterKey(NARROW) == FilterKey(WIDE)
    ensures SelectorLengthsOk(1, NARROW.le, NARROW.ge) && SelectorLengthsOk(12, WIDE.le, WIDE.ge)
    ensures var m := MergeAllowedIn(AllowedIn(false, [NARROW], []), AllowedIn(false, [WIDE], []));
            NARROW !in m.v4 || WIDE !in m.v4
  {
    assert Dec(2) == "2" && Dec(20) == "20" && Dec(0) == "0";
    assert FilterKey(NARROW) == "0.0.0.0/1200" && FilterKey(WIDE) == "0.0.0.0/1200";
    var r, t := AllowedIn(false, [NARROW], []), AllowedIn(false, [WIDE], []);
    MergeFiltersFacts([NARROW], [WIDE]);
    if NARROW in MergeFilters([NARROW], [WIDE]) { OneOfKey(MergeFilters([NARROW], [WIDE]), NARROW, WIDE); }
  }
}
