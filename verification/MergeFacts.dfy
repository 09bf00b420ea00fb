/**
 * The merge realises the union of facts: it fails exactly when a fact of one side contradicts a
 * fact of the other, and otherwise its result says what either side says and is in normal form.
 */
module MergeFacts {
  import opened Ordering
  import opened Decimal
  import opened Configs
  import opened Merge
  import opened Facts

  // ---- well-formed parts and normal forms

  /** A property prefix list as the converter builds it for neighbor `id`. */
  ghost predicate ListOk(l: PrefixList, id: string, prefs: bool) {
    && l.tag.LocalPref? == prefs
    && ListFamily(l.ipFamily)
    && l.name == ListName(id, l.tag, l.ipFamily)
    && l.prefixes != {}
  }

  ghost predicate ListsOk(ls: seq<PrefixList>, id: string, prefs: bool) {
    && (forall l | l in ls :: ListOk(l, id, prefs))
    && (forall i, j | 0 <= i < j < |ls| :: KeyOfList(ls[i]) != KeyOfList(ls[j]))
  }

  /** No prefix has one local preference in `a` and another in `b`. */
  ghost predicate SamePref(a: seq<PrefixList>, b: seq<PrefixList>) {
    forall f, g, x, y, p ::
      TaggedIn(a, f, LocalPref(x), p) && TaggedIn(b, g, LocalPref(y), p) ==> x == y
  }

  /** What the converter guarantees of a neighbor before any merge. */
  ghost predicate WfNeighbor(n: Neighbor) {
    && ListsOk(n.outgoing.localPrefs, ID(n), true)
    && ListsOk(n.outgoing.communities, ID(n), false)
    && SamePref(n.outgoing.localPrefs, n.outgoing.localPrefs)
    && (n.incoming.all ==> n.incoming.v4 == [] && n.incoming.v6 == [])
    && n.name == n.asn + "@" + BaseName(n.addr, n.iface)
  }

  ghost predicate NormalOut(o: AllowedOut) {
    && StrSorted(o.v4) && StrSorted(o.v6)
    && NameSorted(o.localPrefs, KeyOfList) && NameSorted(o.communities, KeyOfList)
  }

  ghost predicate NormalIn(i: AllowedIn) {
    NameSorted(i.v4, FilterKey) && NameSorted(i.v6, FilterKey)
  }

  /** The form every merge leaves a neighbor in. */
  ghost predicate NormalNeighbor(n: Neighbor) {
    && NormalOut(n.outgoing) && NormalIn(n.incoming) && StrSorted(n.addressFamilies)
    && n.port != Some(DEFAULT_PORT) && n.holdTime != Some(DEFAULT_HOLD_TIME)
    && n.keepaliveTime != Some(DEFAULT_KEEPALIVE_TIME) && n.connectTime != Some(DEFAULT_CONNECT_TIME)
  }

  // ---- keyed lists

  lemma {:induction false} LastByKeyProps<K, T>(s: seq<T>, key: T -> K)
    ensures forall k | k in LastByKey(s, key) :: LastByKey(s, key)[k] in s && key(LastByKey(s, key)[k]) == k
    ensures forall x | x in s :: key(x) in LastByKey(s, key)
  {
    if s != [] {
      var t := s[..|s| - 1];
      LastByKeyProps(t, key);
      assert s == t + [s[|s| - 1]];
    }
  }

  lemma {:induction false} LastByKeyDistinct<K, T>(s: seq<T>, key: T -> K)
    requires forall i, j | 0 <= i < j < |s| :: key(s[i]) != key(s[j])
    ensures forall x | x in s :: key(x) in LastByKey(s, key) && LastByKey(s, key)[key(x)] == x
  {
    if s != [] {
      var t := s[..|s| - 1];
      LastByKeyDistinct(t, key);
      LastByKeyProps(t, key);
      assert s == t + [s[|s| - 1]];
      forall x | x in t ensures key(x) != key(s[|s| - 1]) {
        var i :| 0 <= i < |t| && t[i] == x;
        assert s[i] == x;
      }
    }
  }

  // ---- property prefix lists

  ghost predicate MapOk(m: map<string, PrefixList>, id: string, prefs: bool) {
    forall k | k in m :: KeyOfList(m[k]) == k && ListOk(m[k], id, prefs)
  }

  ghost predicate TaggedMap(m: map<string, PrefixList>, family: string, tag: Tag, p: string) {
    exists k :: k in m && m[k].ipFamily == family && m[k].tag == tag && p in m[k].prefixes
  }

  lemma {:induction false} AddListsFacts(m: map<string, PrefixList>, ls: seq<PrefixList>, id: string, prefs: bool)
    requires MapOk(m, id, prefs) && forall l | l in ls :: ListOk(l, id, prefs)
    ensures MapOk(AddLists(m, ls), id, prefs)
    ensures forall f, t, p :: TaggedMap(AddLists(m, ls), f, t, p) <==> TaggedMap(m, f, t, p) || TaggedIn(ls, f, t, p)
  {
    hide ListName, ListKey, ListOk;
    if ls != [] {
      var before := ls[..|ls| - 1];
      var l := ls[|ls| - 1];
      assert ls == before + [l];
      AddListsFacts(m, before, id, prefs);
      AddListStep(AddLists(m, before), l, id, prefs);
      var k := KeyOfList(l);
      var r := AddLists(m, ls);
      forall f, t, p
        ensures TaggedIn(ls, f, t, p) <==>
                  TaggedIn(before, f, t, p) || (l.ipFamily == f && l.tag == t && p in l.prefixes)
      {
        if TaggedIn(ls, f, t, p) {
          var x :| x in ls && x.ipFamily == f && x.tag == t && p in x.prefixes;
          assert x in before || x == l;
        }
        assert l in ls;
      }
    }
  }

  function AddList(m: map<string, PrefixList>, l: PrefixList): (r: map<string, PrefixList>) {
    var k := KeyOfList(l);
    if k in m then m[k := m[k].(prefixes := m[k].prefixes + l.prefixes)] else m[k := l]
  }

  lemma AddListStep(m: map<string, PrefixList>, l: PrefixList, id: string, prefs: bool)
    requires MapOk(m, id, prefs) && ListOk(l, id, prefs)
    ensures MapOk(AddList(m, l), id, prefs)
    ensures forall f, t, p :: TaggedMap(AddList(m, l), f, t, p) <==>
              TaggedMap(m, f, t, p) || (l.ipFamily == f && l.tag == t && p in l.prefixes)
  {
    hide ListName, ListKey;
    var k := KeyOfList(l);
    var r := AddList(m, l);
    if k in m {
      ListKeyInjective(m[k].tag, m[k].ipFamily, l.tag, l.ipFamily);
    }
    forall f, t, p
      ensures TaggedMap(r, f, t, p) <==> TaggedMap(m, f, t, p) || (l.ipFamily == f && l.tag == t && p in l.prefixes)
    {
      if TaggedMap(m, f, t, p) {
        var j :| j in m && m[j].ipFamily == f && m[j].tag == t && p in m[j].prefixes;
        assert j in r && p in r[j].prefixes;
      }
      if l.ipFamily == f && l.tag == t && p in l.prefixes {
        assert k in r && p in r[k].prefixes;
      }
      if TaggedMap(r, f, t, p) {
        var j :| j in r && r[j].ipFamily == f && r[j].tag == t && p in r[j].prefixes;
        if j != k { assert j in m && m[j] == r[j]; }
      }
    }
  }

  lemma MergeListsFacts(a: seq<PrefixList>, b: seq<PrefixList>, id: string, prefs: bool)
    requires ListsOk(a, id, prefs) && ListsOk(b, id, prefs)
    ensures ListsOk(MergeLists(a, b), id, prefs)
    ensures NameSorted(MergeLists(a, b), KeyOfList)
    ensures forall f, t, p :: TaggedIn(MergeLists(a, b), f, t, p) <==> TaggedIn(a, f, t, p) || TaggedIn(b, f, t, p)
  {
    hide ListName, ListKey, ListOk;
    var m0 := LastByKey(a, KeyOfList);
    LastByKeyProps(a, KeyOfList);
    LastByKeyDistinct(a, KeyOfList);
    assert MapOk(m0, id, prefs);
    AddListsFacts(m0, b, id, prefs);
    var m := AddLists(m0, b);
    var r := MergeLists(a, b);
    SortByNameSorted(m, KeyOfList);
    forall f, t, p ensures TaggedIn(r, f, t, p) <==> TaggedIn(a, f, t, p) || TaggedIn(b, f, t, p) {
      MapAndList(m, r, f, t, p);
      if TaggedMap(m0, f, t, p) {
        var k :| k in m0 && m0[k].ipFamily == f && m0[k].tag == t && p in m0[k].prefixes;
        assert m0[k] in a;
      }
      if TaggedIn(a, f, t, p) {
        var l :| l in a && l.ipFamily == f && l.tag == t && p in l.prefixes;
        assert m0[KeyOfList(l)] == l;
      }
    }
  }

  lemma MapAndList(m: map<string, PrefixList>, r: seq<PrefixList>, f: string, t: Tag, p: string)
    requires r == SortByName(m)
    ensures TaggedIn(r, f, t, p) <==> TaggedMap(m, f, t, p)
  {
    hide SortByName;
    if TaggedIn(r, f, t, p) {
      var l :| l in r && l.ipFamily == f && l.tag == t && p in l.prefixes;
      var k :| k in m && m[k] == l;
    }
    if TaggedMap(m, f, t, p) {
      var k :| k in m && m[k].ipFamily == f && m[k].tag == t && p in m[k].prefixes;
      assert m[k] in r;
    }
  }

  // ---- local preferences

  ghost predicate Prefers(ls: seq<PrefixList>, p: string, pref: u32) {
    exists l :: l in ls && p in l.prefixes && l.tag == LocalPref(pref)
  }

  lemma {:induction false} PrefForPrefixFacts(ls: seq<PrefixList>)
    requires forall l | l in ls :: l.tag.LocalPref?
    ensures forall p | p in PrefForPrefix(ls) :: Prefers(ls, p, PrefForPrefix(ls)[p])
    ensures forall l, p | l in ls && p in l.prefixes :: p in PrefForPrefix(ls)
  {
    if ls != [] {
      var before, last := ls[..|ls| - 1], ls[|ls| - 1];
      assert ls == before + [last];
      PrefForPrefixFacts(before);
      var m, m0 := PrefForPrefix(ls), PrefForPrefix(before);
      forall p | p in m ensures Prefers(ls, p, m[p]) {
        if p in last.prefixes {
          assert last in ls && last.tag == LocalPref(m[p]);
        } else {
          assert p in m0 && m[p] == m0[p];
          var l :| l in before && p in l.prefixes && l.tag == LocalPref(m0[p]);
          assert l in ls;
        }
      }
    }
  }

  lemma PrefsAgreeFacts(a: seq<PrefixList>, b: seq<PrefixList>, id: string)
    requires ListsOk(a, id, true) && ListsOk(b, id, true) && SamePref(a, a)
    ensures PrefsAgree(PrefForPrefix(a), b) <==> SamePref(a, b)
  {
    hide KeyOfList, ListName, PrefForPrefix;
    PrefForPrefixFacts(a);
    var m := PrefForPrefix(a);
    if PrefsAgree(m, b) {
      forall f, g, x, y, p | TaggedIn(a, f, LocalPref(x), p) && TaggedIn(b, g, LocalPref(y), p) ensures x == y {
        var l :| l in a && l.ipFamily == f && l.tag == LocalPref(x) && p in l.prefixes;
        var k :| k in b && k.ipFamily == g && k.tag == LocalPref(y) && p in k.prefixes;
        assert Prefers(a, p, m[p]);
        var o :| o in a && p in o.prefixes && o.tag == LocalPref(m[p]);
        assert TaggedIn(a, o.ipFamily, LocalPref(m[p]), p);
      }
    }
    if SamePref(a, b) {
      forall k, p | k in b && p in k.prefixes && p in m ensures m[p] == k.tag.pref {
        assert Prefers(a, p, m[p]);
        var o :| o in a && p in o.prefixes && o.tag == LocalPref(m[p]);
        assert TaggedIn(a, o.ipFamily, LocalPref(m[p]), p);
        assert k.tag == LocalPref(k.tag.pref);
        assert TaggedIn(b, k.ipFamily, LocalPref(k.tag.pref), p);
      }
    }
  }

  // ---- outgoing and incoming

  ghost predicate FlatAgree(a: string, b: string) { a == "" || b == "" || a == b }

  ghost predicate WfOut(o: AllowedOut, id: string) {
    ListsOk(o.localPrefs, id, true) && ListsOk(o.communities, id, false) && SamePref(o.localPrefs, o.localPrefs)
  }

  ghost predicate OutAgree(r: AllowedOut, t: AllowedOut) {
    FlatAgree(r.nextHopV4, t.nextHopV4) && FlatAgree(r.nextHopV6, t.nextHopV6) && SamePref(r.localPrefs, t.localPrefs)
  }

  ghost predicate OutTagged(o: AllowedOut, f: string, t: Tag, p: string) { TaggedIn(Lists(o, t), f, t, p) }

  function FlatJoin(a: string, b: string): (r: string) { if a == "" then b else a }

  lemma SamePrefUnion(a: seq<PrefixList>, b: seq<PrefixList>, m: seq<PrefixList>)
    requires SamePref(a, a) && SamePref(a, b) && SamePref(b, b)
    requires forall f, t, p :: TaggedIn(m, f, t, p) <==> TaggedIn(a, f, t, p) || TaggedIn(b, f, t, p)
    ensures SamePref(m, m)
  {}

  lemma MergeAllowedOutOk(r: AllowedOut, t: AllowedOut, id: string)
    requires WfOut(r, id) && WfOut(t, id)
    ensures MergeAllowedOut(r, t).Ok? <==> OutAgree(r, t)
  {
    hide ListsOk, SamePref, PrefsAgree, PrefForPrefix, MergeLists;
    PrefsAgreeFacts(r.localPrefs, t.localPrefs, id);
  }

  ghost predicate OutJoin(m: AllowedOut, r: AllowedOut, t: AllowedOut) {
    && (forall p :: p in m.v4 <==> p in r.v4 || p in t.v4)
    && (forall p :: p in m.v6 <==> p in r.v6 || p in t.v6)
    && m.nextHopV4 == FlatJoin(r.nextHopV4, t.nextHopV4)
    && m.nextHopV6 == FlatJoin(r.nextHopV6, t.nextHopV6)
    && (forall f, x, p :: OutTagged(m, f, x, p) <==> OutTagged(r, f, x, p) || OutTagged(t, f, x, p))
  }

  lemma MergeAllowedOutWf(r: AllowedOut, t: AllowedOut, id: string)
    requires WfOut(r, id) && WfOut(t, id) && OutAgree(r, t) && MergeAllowedOut(r, t).Ok?
    ensures WfOut(MergeAllowedOut(r, t).value, id) && NormalOut(MergeAllowedOut(r, t).value)
  {
    hide SamePref, PrefsAgree, PrefForPrefix, MergeLists, ListsOk, TaggedIn;
    MergeListsFacts(r.localPrefs, t.localPrefs, id, true);
    MergeListsFacts(r.communities, t.communities, id, false);
    SamePrefUnion(r.localPrefs, t.localPrefs, MergeLists(r.localPrefs, t.localPrefs));
  }

  lemma MergeAllowedOutTagged(r: AllowedOut, t: AllowedOut, id: string, f: string, x: Tag, p: string)
    requires WfOut(r, id) && WfOut(t, id) && MergeAllowedOut(r, t).Ok?
    ensures OutTagged(MergeAllowedOut(r, t).value, f, x, p) <==> OutTagged(r, f, x, p) || OutTagged(t, f, x, p)
  {
    hide TaggedIn, ListsOk, MergeLists, SamePref, PrefsAgree, PrefForPrefix, MergeNextHop;
    MergeListsFacts(Lists(r, x), Lists(t, x), id, x.LocalPref?);
  }

  lemma MergeAllowedOutFacts(r: AllowedOut, t: AllowedOut, id: string)
    requires WfOut(r, id) && WfOut(t, id) && OutAgree(r, t)
    ensures MergeAllowedOut(r, t).Ok?
    ensures var m := MergeAllowedOut(r, t).value; WfOut(m, id) && NormalOut(m) && OutJoin(m, r, t)
  {
    hide WfOut, NormalOut, OutTagged, TaggedIn, MergeLists;
    MergeAllowedOutOk(r, t, id);
    MergeAllowedOutWf(r, t, id);
    forall f, x, p {
      MergeAllowedOutTagged(r, t, id, f, x, p);
    }
  }

  /** `m` keeps the filters of both lists, as far as no filter hides another one with the same key. */
  lemma MergeFiltersFacts(a: seq<Filter>, b: seq<Filter>)
    ensures NameSorted(MergeFilters(a, b), FilterKey)
    ensures forall x | x in MergeFilters(a, b) :: x in a || x in b
    ensures forall x | x in a || x in b :: exists y :: y in MergeFilters(a, b) && FilterKey(y) == FilterKey(x)
  {
    hide FilterKey;
    var m := LastByKey(a + b, FilterKey);
    LastByKeyProps(a + b, FilterKey);
    SortByNameSorted(m, FilterKey);
    forall x | x in a || x in b ensures exists y :: y in MergeFilters(a, b) && FilterKey(y) == FilterKey(x) {
      assert x in a + b;
      assert m[FilterKey(x)] in MergeFilters(a, b);
    }
  }

  /** No filter of `i` shares its key with a different filter of `j` in the same family. */
  ghost predicate KeysAgree(i: AllowedIn, j: AllowedIn) {
    forall v6, x, y | x in Filters(i, v6) && y in Filters(j, v6) :: FilterKey(x) == FilterKey(y) ==> x == y
  }

  ghost predicate InJoin(m: AllowedIn, r: AllowedIn, t: AllowedIn) {
    && (m.all <==> r.all || t.all)
    && (m.all ==> m.v4 == [] && m.v6 == [])
    && (forall v6, x | x in Filters(m, v6) :: x in Filters(r, v6) || x in Filters(t, v6))
  }

  lemma MergeAllowedInFacts(r: AllowedIn, t: AllowedIn)
    ensures NormalIn(MergeAllowedIn(r, t)) && InJoin(MergeAllowedIn(r, t), r, t)
  {
    hide FilterKey, MergeFilters;
    MergeFiltersFacts(r.v4, t.v4);
    MergeFiltersFacts(r.v6, t.v6);
  }

  lemma MergeAllowedInKeeps(r: AllowedIn, t: AllowedIn, v6: bool, x: Filter)
    requires KeysAgree(r, r) && KeysAgree(r, t) && KeysAgree(t, t)
    requires !r.all && !t.all && (x in Filters(r, v6) || x in Filters(t, v6))
    ensures x in Filters(MergeAllowedIn(r, t), v6)
  {
    hide FilterKey, MergeFilters;
    MergeFiltersFacts(Filters(r, v6), Filters(t, v6));
    var y :| y in MergeFilters(Filters(r, v6), Filters(t, v6)) && FilterKey(y) == FilterKey(x);
  }

}
