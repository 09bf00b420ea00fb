/** Merging the EVPN parts of two routers. */
module EvpnFacts {
  import opened Ordering
  import opened Configs
  import opened Merge
  import opened Facts
  import opened MergeFacts

  // ---- the properties of one VNI

  ghost predicate NormalProps(p: VniProps) { StrSorted(p.importRTs) && StrSorted(p.exportRTs) }

  ghost predicate VnisClash(p: VniProps, q: VniProps) {
    exists f, g :: VniSays(p, f) && VniSays(q, g) && VniConflict(f, g)
  }

  ghost predicate PropsJoin(m: VniProps, p: VniProps, q: VniProps) {
    forall f :: VniSays(m, f) <==> VniSays(p, f) || VniSays(q, f)
  }

  lemma ClashingProps(p: VniProps, q: VniProps, f: VniFact, g: VniFact)
    requires VniSays(p, f) && VniSays(q, g) && VniConflict(f, g)
    ensures VnisClash(p, q)
  {}

  lemma NoSelfClash(p: VniProps)
    ensures !VnisClash(p, p)
  {}

  lemma MergeVniPropsFacts(p: VniProps, q: VniProps)
    ensures MergeVniProps(p, q).Ok? <==> !VnisClash(p, q)
    ensures MergeVniProps(p, q).Ok? ==>
              NormalProps(MergeVniProps(p, q).value) && PropsJoin(MergeVniProps(p, q).value, p, q)
  {
    if MergeVniProps(p, q).Err? {
      if p.rd != "" && q.rd != "" && p.rd != q.rd {
        ClashingProps(p, q, Distinguisher(p.rd), Distinguisher(q.rd));
      } else {
        ClashingProps(p, q, Targets(p.importRTs == [], p.exportRTs == []),
                      Targets(q.importRTs == [], q.exportRTs == []));
      }
    } else {
      var m := MergeVniProps(p, q).value;
      MergeRTsFacts(p.importRTs, q.importRTs);
      MergeRTsFacts(p.exportRTs, q.exportRTs);
      forall f ensures VniSays(m, f) <==> VniSays(p, f) || VniSays(q, f) {}
    }
  }

  lemma MergeRTsFacts(a: seq<string>, b: seq<string>)
    requires (a == []) == (b == [])
    ensures StrSorted(MergeRTs(a, b))
    ensures forall x :: x in MergeRTs(a, b) <==> x in a || x in b
    ensures MergeRTs(a, b) == [] <==> a == []
  {
    if a != [] { assert a[0] in MergeRTs(a, b); }
  }

  // ---- L2 VNIs

  ghost predicate NormalL2(vs: seq<L2Vni>) {
    NumberSorted(vs, VniOf) && forall v | v in vs :: NormalProps(v.props)
  }

  ghost predicate L2Clash(a: seq<L2Vni>, b: seq<L2Vni>) {
    exists v, w :: v in a && w in b && v.vni == w.vni && VnisClash(v.props, w.props)
  }

  ghost predicate L2Join(m: seq<L2Vni>, a: seq<L2Vni>, b: seq<L2Vni>) {
    forall vni, f :: L2Says(m, vni, f) <==> L2Says(a, vni, f) || L2Says(b, vni, f)
  }

  ghost predicate HasVni(vs: seq<L2Vni>, vni: nat) { exists v :: v in vs && v.vni == vni }

  ghost predicate Numbered(m: map<nat, L2Vni>) { forall k | k in m :: m[k].vni == k }

  ghost predicate MapClash(m: map<nat, L2Vni>, v: L2Vni) { v.vni in m && VnisClash(m[v.vni].props, v.props) }

  /** Adding `vs` one by one to `m` meets a clash. */
  ghost predicate AddClash(m: map<nat, L2Vni>, vs: seq<L2Vni>) {
    || (exists v :: v in vs && MapClash(m, v))
    || (exists i, j :: 0 <= i < j < |vs| && vs[i].vni == vs[j].vni && VnisClash(vs[i].props, vs[j].props))
  }

  ghost predicate MapSays(m: map<nat, L2Vni>, vni: nat, f: VniFact) { vni in m && VniSays(m[vni].props, f) }

  /** `r` is what adding `vs` to `m` gives. */
  ghost predicate Added(r: map<nat, L2Vni>, m: map<nat, L2Vni>, vs: seq<L2Vni>) {
    && Numbered(r)
    && (forall k :: k in r <==> k in m || HasVni(vs, k))
    && (forall vni, f :: MapSays(r, vni, f) <==> MapSays(m, vni, f) || L2Says(vs, vni, f))
    && (forall k | k in r :: (k in m && r[k] == m[k] && !HasVni(vs, k)) || (k !in m && r[k] in vs) ||
          NormalProps(r[k].props))
  }

  /** What has been added clashes with `v` exactly when something that was added does. */
  lemma AddedClash(r: map<nat, L2Vni>, m: map<nat, L2Vni>, vs: seq<L2Vni>, v: L2Vni)
    requires Numbered(m) && Added(r, m, vs)
    ensures MapClash(r, v) <==> MapClash(m, v) || exists w :: w in vs && w.vni == v.vni && VnisClash(w.props, v.props)
  {
    hide NormalProps, VniSays, VniConflict, HasVni;
    if MapClash(r, v) {
      var f, g :| VniSays(r[v.vni].props, f) && VniSays(v.props, g) && VniConflict(f, g);
      assert MapSays(r, v.vni, f);
      if MapSays(m, v.vni, f) {
        ClashingProps(m[v.vni].props, v.props, f, g);
      } else {
        var w :| w in vs && w.vni == v.vni && VniSays(w.props, f);
        ClashingProps(w.props, v.props, f, g);
      }
    }
    if MapClash(m, v) {
      var f, g :| VniSays(m[v.vni].props, f) && VniSays(v.props, g) && VniConflict(f, g);
      assert MapSays(m, v.vni, f);
      assert MapSays(r, v.vni, f);
      ClashingProps(r[v.vni].props, v.props, f, g);
    }
    if w :| w in vs && w.vni == v.vni && VnisClash(w.props, v.props) {
      var f, g :| VniSays(w.props, f) && VniSays(v.props, g) && VniConflict(f, g);
      assert L2Says(vs, v.vni, f);
      assert MapSays(r, v.vni, f);
      ClashingProps(r[v.vni].props, v.props, f, g);
    }
  }

  lemma AddClashStep(m: map<nat, L2Vni>, vs: seq<L2Vni>, v: L2Vni, r: map<nat, L2Vni>)
    requires Numbered(m) && Added(r, m, vs)
    ensures AddClash(m, vs + [v]) <==> AddClash(m, vs) || MapClash(r, v)
  {
    hide Added, MapClash, VnisClash;
    var all := vs + [v];
    assert forall w :: w in all <==> w in vs || w == v;
    AddedClash(r, m, vs, v);
    if AddClash(m, vs) { AddClashMore(m, vs, v); }
    if MapClash(r, v) && !MapClash(m, v) {
      var w :| w in vs && w.vni == v.vni && VnisClash(w.props, v.props);
      var i :| 0 <= i < |vs| && vs[i] == w;
      assert all[i] == w && all[|vs|] == v;
    }
    if AddClash(m, all) && !AddClash(m, vs) {
      if w :| w in all && MapClash(m, w) {
        assert w == v;
      } else {
        var i, j :| 0 <= i < j < |all| && all[i].vni == all[j].vni && VnisClash(all[i].props, all[j].props);
        assert j == |vs| && all[i] == vs[i];
      }
    }
  }

  lemma L2SaysStep(vs: seq<L2Vni>, v: L2Vni, vni: nat, f: VniFact)
    ensures L2Says(vs + [v], vni, f) <==> L2Says(vs, vni, f) || (v.vni == vni && VniSays(v.props, f))
    ensures HasVni(vs + [v], vni) <==> HasVni(vs, vni) || v.vni == vni
  {
    hide VniSays;
    assert v in vs + [v];
    assert forall w :: w in vs + [v] <==> w in vs || w == v;
  }

  lemma AddedStep(m: map<nat, L2Vni>, vs: seq<L2Vni>, v: L2Vni, before: map<nat, L2Vni>, x: L2Vni)
    requires Numbered(m) && Added(before, m, vs) && x.vni == v.vni
    requires v.vni in before ==> NormalProps(x.props) && PropsJoin(x.props, before[v.vni].props, v.props)
    requires v.vni !in before ==> x == v
    ensures Added(before[v.vni := x], m, vs + [v])
  {
    hide NormalProps, VniSays, L2Says, HasVni;
    var r := before[v.vni := x];
    forall vni, f ensures MapSays(r, vni, f) <==> MapSays(m, vni, f) || L2Says(vs + [v], vni, f) {
      L2SaysStep(vs, v, vni, f);
    }
    forall k ensures HasVni(vs + [v], k) <==> HasVni(vs, k) || v.vni == k { L2SaysStep(vs, v, k, Distinguisher("")); }
    assert forall w :: w in vs + [v] <==> w in vs || w == v;
    forall k | k in r
      ensures (k in m && r[k] == m[k] && !HasVni(vs + [v], k)) || (k !in m && r[k] in vs + [v]) ||
                NormalProps(r[k].props) {}
  }

  lemma {:induction false} AddL2Facts(m: map<nat, L2Vni>, vs: seq<L2Vni>)
    requires Numbered(m)
    ensures AddL2(m, vs).Ok? <==> !AddClash(m, vs)
    ensures AddL2(m, vs).Ok? ==> Added(AddL2(m, vs).value, m, vs)
  {
    hide NormalProps, VnisClash, PropsJoin, MergeVniProps, AddClash;
    if vs == [] {
      AddNothing(m);
    } else {
      var before, v := vs[..|vs| - 1], vs[|vs| - 1];
      assert vs == before + [v];
      AddL2Facts(m, before);
      if AddL2(m, before).Ok? {
        hide Added;
        var b := AddL2(m, before).value;
        AddClashStep(m, before, v, b);
        if v.vni in b {
          MergeVniPropsFacts(b[v.vni].props, v.props);
          if MergeVniProps(b[v.vni].props, v.props).Ok? {
            AddedNumbered(b, m, before);
            AddedStep(m, before, v, b, L2Vni(b[v.vni].vni, MergeVniProps(b[v.vni].props, v.props).value));
          }
        } else {
          AddedStep(m, before, v, b, v);
        }
      } else {
        AddClashMore(m, before, v);
      }
    }
  }

  lemma AddedNumbered(r: map<nat, L2Vni>, m: map<nat, L2Vni>, vs: seq<L2Vni>)
    requires Added(r, m, vs)
    ensures Numbered(r)
  {}

  lemma AddNothing(m: map<nat, L2Vni>)
    requires Numbered(m)
    ensures Added(m, m, []) && !AddClash(m, [])
  {}

  lemma AddClashMore(m: map<nat, L2Vni>, vs: seq<L2Vni>, v: L2Vni)
    requires AddClash(m, vs)
    ensures AddClash(m, vs + [v])
  {
    hide VnisClash, MapClash;
    var all := vs + [v];
    if w :| w in vs && MapClash(m, w) {
      assert w in all;
    } else {
      var i, j :| 0 <= i < j < |vs| && vs[i].vni == vs[j].vni && VnisClash(vs[i].props, vs[j].props);
      assert all[i] == vs[i] && all[j] == vs[j];
    }
  }

  lemma RenderL2(r: map<nat, L2Vni>, vni: nat, f: VniFact)
    requires Numbered(r)
    ensures L2Says(SortByNumber(r), vni, f) <==> MapSays(r, vni, f)
  {
    hide VniSays;
    var s := SortByNumber(r);
    if L2Says(s, vni, f) {
      var v :| v in s && v.vni == vni && VniSays(v.props, f);
      var k :| k in r && r[k] == v;
    }
    if MapSays(r, vni, f) { assert r[vni] in s; }
  }

  lemma MergeL2Rendered(a: seq<L2Vni>, b: seq<L2Vni>, m: map<nat, L2Vni>, r: map<nat, L2Vni>)
    requires m == LastByKey(a, VniOf) && Numbered(m) && Added(r, m, b)
    requires forall k | k in m :: m[k] in a
    requires forall vni, f | L2Says(a, vni, f) :: MapSays(m, vni, f) || L2Says(b, vni, f)
    ensures L2Join(SortByNumber(r), a, b) && NumberSorted(SortByNumber(r), VniOf)
  {
    hide NormalProps, VniSays, LastByKey;
    SortByNumberSorted(r, VniOf);
    forall vni, f ensures L2Says(SortByNumber(r), vni, f) <==> L2Says(a, vni, f) || L2Says(b, vni, f) {
      RenderL2(r, vni, f);
      if MapSays(m, vni, f) { assert m[vni] in a; }
    }
  }

  lemma RenderNormal(r: map<nat, L2Vni>)
    requires forall k | k in r :: NormalProps(r[k].props)
    requires NumberSorted(SortByNumber(r), VniOf)
    ensures NormalL2(SortByNumber(r))
  {
    hide NormalProps;
    forall v | v in SortByNumber(r) ensures NormalProps(v.props) { var k :| k in r && r[k] == v; }
  }

  /** Two lists that are already in normal form. */
  lemma MergeL2Facts(a: seq<L2Vni>, b: seq<L2Vni>)
    requires NormalL2(a) && NormalL2(b)
    ensures MergeL2(a, b).Ok? <==> !L2Clash(a, b)
    ensures MergeL2(a, b).Ok? ==> NormalL2(MergeL2(a, b).value) && L2Join(MergeL2(a, b).value, a, b)
  {
    hide NormalProps, VniSays, VnisClash;
    if a != [] && b != [] {
      var m := LastByKey(a, VniOf);
      LastByKeyProps(a, VniOf);
      LastByKeyDistinct(a, VniOf);
      AddL2Facts(m, b);
      AddClashIsClash(a, b, m);
      if AddL2(m, b).Ok? {
        var r := AddL2(m, b).value;
        forall vni, f | L2Says(a, vni, f) ensures MapSays(m, vni, f) {}
        MergeL2Rendered(a, b, m, r);
        RenderNormal(r);
      }
    }
  }

  lemma AddClashIsClash(a: seq<L2Vni>, b: seq<L2Vni>, m: map<nat, L2Vni>)
    requires NumberSorted(b, VniOf)
    requires forall k | k in m :: m[k] in a && m[k].vni == k
    requires forall v | v in a :: v.vni in m && m[v.vni] == v
    ensures AddClash(m, b) <==> L2Clash(a, b)
  {
    hide VnisClash;
    if L2Clash(a, b) {
      var v, w :| v in a && w in b && v.vni == w.vni && VnisClash(v.props, w.props);
      assert MapClash(m, w);
    }
    if AddClash(m, b) {
      assert forall i, j | 0 <= i < j < |b| :: VniOf(b[i]) != VniOf(b[j]);
      var w :| w in b && MapClash(m, w);
      assert m[w.vni] in a;
    }
  }

  /** A list with itself, whatever its form: entries for one VNI are joined. */
  lemma SelfMergeL2Facts(a: seq<L2Vni>)
    ensures MergeL2(a, a).Ok? <==> !L2Clash(a, a)
    ensures MergeL2(a, a).Ok? ==> NormalL2(MergeL2(a, a).value) && L2Join(MergeL2(a, a).value, a, a)
  {
    hide NormalProps, VniSays, VnisClash;
    if a != [] {
      var m := LastByKey(a, VniOf);
      LastByKeyProps(a, VniOf);
      AddL2Facts(m, a);
      SelfAddClash(a, m);
      if AddL2(m, a).Ok? {
        var r := AddL2(m, a).value;
        MergeL2Rendered(a, a, m, r);
        forall k | k in r ensures NormalProps(r[k].props) {
          assert k in m ==> m[k] in a && HasVni(a, k);
          assert r[k] in a ==> VniOf(r[k]) in m;
        }
        RenderNormal(r);
      }
    }
  }

  lemma SelfAddClash(a: seq<L2Vni>, m: map<nat, L2Vni>)
    requires forall k | k in m :: m[k] in a && m[k].vni == k
    ensures AddClash(m, a) <==> L2Clash(a, a)
  {
    if L2Clash(a, a) {
      var v, w :| v in a && w in a && v.vni == w.vni && VnisClash(v.props, w.props);
      var i :| 0 <= i < |a| && a[i] == v;
      var j :| 0 <= j < |a| && a[j] == w;
      ClashSymmetric(v.props, w.props);
      NoSelfClash(v.props);
      assert i != j;
      if i < j { assert AddClash(m, a); } else { assert AddClash(m, a); }
    }
    if AddClash(m, a) {
      if w :| w in a && MapClash(m, w) {
        assert m[w.vni] in a;
      } else {
        var i, j :| 0 <= i < j < |a| && a[i].vni == a[j].vni && VnisClash(a[i].props, a[j].props);
      }
    }
  }

  lemma ClashSymmetric(p: VniProps, q: VniProps)
    requires VnisClash(p, q)
    ensures VnisClash(q, p)
  {
    var f, g :| VniSays(p, f) && VniSays(q, g) && VniConflict(f, g);
    ClashingProps(q, p, g, f);
  }

  // ---- the whole EVPN part

  ghost predicate NormalL3(o: Option<L3Vni>) {
    o.Some? ==> NormalProps(o.value.props) && StrSorted(o.value.advertisePrefixes)
  }

  ghost predicate NormalEvpn(e: Option<Evpn>) { e.Some? ==> NormalL2(e.value.l2) && NormalL3(e.value.l3) }

  ghost predicate L3Agree(a: Option<L3Vni>, b: Option<L3Vni>) {
    a.Some? && b.Some? ==> a.value.vni == b.value.vni && !VnisClash(a.value.props, b.value.props)
  }

  ghost predicate EvpnAgree(a: Option<Evpn>, b: Option<Evpn>) {
    a.Some? && b.Some? ==>
      && OrDefault(a.value.advertiseVNIs, VNIS_DISABLED) == OrDefault(b.value.advertiseVNIs, VNIS_DISABLED)
      && a.value.advertiseSVI == b.value.advertiseSVI
      && !L2Clash(a.value.l2, b.value.l2)
      && L3Agree(a.value.l3, b.value.l3)
  }

  ghost predicate EvpnsClash(a: Option<Evpn>, b: Option<Evpn>) {
    exists f, g :: EvpnSays(a, f) && EvpnSays(b, g) && RouterConflict(f, g)
  }

  lemma ClashingEvpns(a: Option<Evpn>, b: Option<Evpn>, f: RouterFact, g: RouterFact)
    requires EvpnSays(a, f) && EvpnSays(b, g) && RouterConflict(f, g)
    ensures EvpnsClash(a, b)
  {}

  lemma SomeVniFact(p: VniProps)
    ensures VniSays(p, Targets(p.importRTs == [], p.exportRTs == []))
  {}

  lemma EvpnAgreeIsNoClash(a: Option<Evpn>, b: Option<Evpn>)
    ensures EvpnAgree(a, b) <==> !EvpnsClash(a, b)
  {
    hide VniSays, VniConflict, L2Says, EvpnsClash, L2Clash, VnisClash;
    if !EvpnAgree(a, b) {
      EvpnDisagree(a, b);
    }
    if EvpnsClash(a, b) {
      EvpnClashDisagrees(a, b);
    }
  }

  lemma EvpnClashDisagrees(a: Option<Evpn>, b: Option<Evpn>)
    requires EvpnsClash(a, b)
    ensures !EvpnAgree(a, b)
  {
    hide VniSays, VniConflict;
    var f, g :| EvpnSays(a, f) && EvpnSays(b, g) && RouterConflict(f, g);
    if f.L2? {
      var v :| v in a.value.l2 && v.vni == f.vni && VniSays(v.props, f.l2);
      var w :| w in b.value.l2 && w.vni == g.vni && VniSays(w.props, g.l2);
      ClashingProps(v.props, w.props, f.l2, g.l2);
    } else if f.L3? && f.vni == g.vni {
      ClashingProps(a.value.l3.value.props, b.value.l3.value.props, f.l3, g.l3);
    }
  }

  lemma EvpnDisagree(a: Option<Evpn>, b: Option<Evpn>)
    requires !EvpnAgree(a, b)
    ensures EvpnsClash(a, b)
  {
    hide VniSays, VniConflict, EvpnsClash;
    var x, y := a.value, b.value;
    if x.advertiseSVI != y.advertiseSVI ||
       OrDefault(x.advertiseVNIs, VNIS_DISABLED) != OrDefault(y.advertiseVNIs, VNIS_DISABLED) {
      ClashingEvpns(a, b, HasEvpn(OrDefault(x.advertiseVNIs, VNIS_DISABLED), x.advertiseSVI),
                    HasEvpn(OrDefault(y.advertiseVNIs, VNIS_DISABLED), y.advertiseSVI));
    } else if L2Clash(x.l2, y.l2) {
      var v, w :| v in x.l2 && w in y.l2 && v.vni == w.vni && VnisClash(v.props, w.props);
      var f, g :| VniSays(v.props, f) && VniSays(w.props, g) && VniConflict(f, g);
      assert L2Says(x.l2, v.vni, f) && L2Says(y.l2, w.vni, g);
      ClashingEvpns(a, b, L2(v.vni, f), L2(w.vni, g));
    } else if x.l3.value.vni != y.l3.value.vni {
      var p, q := x.l3.value.props, y.l3.value.props;
      SomeVniFact(p); SomeVniFact(q);
      ClashingEvpns(a, b, L3(x.l3.value.vni, Targets(p.importRTs == [], p.exportRTs == [])),
                    L3(y.l3.value.vni, Targets(q.importRTs == [], q.exportRTs == [])));
    } else {
      var f, g :| VniSays(x.l3.value.props, f) && VniSays(y.l3.value.props, g) && VniConflict(f, g);
      ClashingEvpns(a, b, L3(x.l3.value.vni, f), L3(y.l3.value.vni, g));
    }
  }

  ghost predicate EvpnJoin(m: Option<Evpn>, a: Option<Evpn>, b: Option<Evpn>) {
    forall f :: EvpnSays(m, f) <==> EvpnSays(a, f) || EvpnSays(b, f)
  }

  lemma MergeL3Facts(a: Option<L3Vni>, b: Option<L3Vni>)
    ensures MergeL3(a, b).Ok? <==> L3Agree(a, b)
    ensures MergeL3(a, b).Ok? && NormalL3(a) && NormalL3(b) ==> NormalL3(MergeL3(a, b).value)
    ensures MergeL3(a, b).Ok? && a == b ==> NormalL3(MergeL3(a, b).value)
    ensures MergeL3(a, b).Ok? ==> L3Join(MergeL3(a, b).value, a, b)
  {
    hide VniSays, VnisClash, MergeVniProps, NormalProps;
    if a.Some? && b.Some? && a.value.vni == b.value.vni {
      MergeVniPropsFacts(a.value.props, b.value.props);
    }
  }

  ghost predicate L3Join(m: Option<L3Vni>, a: Option<L3Vni>, b: Option<L3Vni>) {
    && (m.Some? <==> a.Some? || b.Some?)
    && (a.Some? ==> m.value.vni == a.value.vni)
    && (b.Some? ==> m.value.vni == b.value.vni)
    && (forall f | m.Some? :: VniSays(m.value.props, f) <==>
          (a.Some? && VniSays(a.value.props, f)) || (b.Some? && VniSays(b.value.props, f)))
    && (forall t | m.Some? :: t in m.value.advertisePrefixes <==>
          (a.Some? && t in a.value.advertisePrefixes) || (b.Some? && t in b.value.advertisePrefixes))
  }

  lemma MergeEvpnFacts(a: Option<Evpn>, b: Option<Evpn>)
    requires (NormalEvpn(a) && NormalEvpn(b)) || a == b
    ensures MergeEvpn(a, b).Ok? <==> EvpnAgree(a, b)
    ensures MergeEvpn(a, b).Ok? ==> NormalEvpn(MergeEvpn(a, b).value) && EvpnJoin(MergeEvpn(a, b).value, a, b)
  {
    hide VniSays, VnisClash, NormalL2, L2Says, MergeL2, MergeL3, L2Clash, L3Agree, NormalL3, L2Join, L3Join;
    if a.Some? && b.Some? {
      if a == b { SelfMergeL2Facts(a.value.l2); } else { MergeL2Facts(a.value.l2, b.value.l2); }
      MergeL3Facts(a.value.l3, b.value.l3);
      if MergeEvpn(a, b).Ok? {
        var m := MergeEvpn(a, b).value;
        forall f ensures EvpnSays(m, f) <==> EvpnSays(a, f) || EvpnSays(b, f) { EvpnJoinSays(m, a, b, f); }
      }
    }
  }

  lemma EvpnJoinSays(m: Option<Evpn>, a: Option<Evpn>, b: Option<Evpn>, f: RouterFact)
    requires m.Some? && a.Some? && b.Some? && EvpnAgree(a, b)
    requires m.value.advertiseVNIs == if a.value.advertiseVNIs.None? then b.value.advertiseVNIs
              else a.value.advertiseVNIs
    requires m.value.advertiseSVI == a.value.advertiseSVI
    requires L2Join(m.value.l2, a.value.l2, b.value.l2) && L3Join(m.value.l3, a.value.l3, b.value.l3)
    ensures EvpnSays(m, f) <==> EvpnSays(a, f) || EvpnSays(b, f)
  {
    hide VniSays, VnisClash, L2Says, L2Clash;
  }
}
