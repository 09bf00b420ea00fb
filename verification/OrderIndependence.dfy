/** The order in which configurations are listed does not matter. */
module OrderIndependence {
  import opened Ordering
  import opened Configs
  import opened Facts
  import opened NeighborFacts
  import opened RouterFacts
  import opened Api
  import opened Translate
  import opened Conversion
  import opened FoldFacts
  import opened ConvertFacts
  import opened Origins
  import opened NormalForms
  import opened Properties
  import opened Restarts
  import opened Removal

  // ---- success

  lemma SameMembers<T>(a: seq<T>, b: seq<T>, x: T)
    requires multiset(a) == multiset(b)
    ensures x in a <==> x in b
  {
    assert x in a <==> x in multiset(a);
    assert x in b <==> x in multiset(b);
  }

  lemma SameConfigsSaySame(env: Env, cs: seq<ApiConfig>, ds: seq<ApiConfig>)
    requires forall c :: c in cs <==> c in ds
    ensures Convert(env, cs).Ok? <==> Convert(env, ds).Ok?
    ensures Undisputed(env, cs) <==> Undisputed(env, ds)
  {
    hide Convert, ConfigSays, TranslateConfig, Contradict, Undisputed;
    ConversionTheorem(env, cs); ConversionTheorem(env, ds);
    UndisputedTheorem(env, cs); UndisputedTheorem(env, ds);
    forall f ensures SaidBy(env, cs, f) <==> SaidBy(env, ds, f) {}
  }

  // ---- raw snippets

  datatype RawKey = RawKey(priority: int, name: string)

  function KeyOfRaw(r: Raw): (k: RawKey) { RawKey(r.priority, r.name) }

  predicate RawKeyLe(a: RawKey, b: RawKey) {
    if a.priority == b.priority then StrLe(a.name, b.name) else a.priority < b.priority
  }

  lemma RawKeyOrder()
    ensures TotalOrder(RawKeyLe)
  {
    StrOrder();
  }

  ghost predicate DistinctKeys(s: seq<Raw>) {
    forall i, j | 0 <= i < j < |s| :: KeyOfRaw(s[i]) != KeyOfRaw(s[j])
  }

  lemma RawLeByKey(a: Raw, b: Raw)
    ensures RawLe(a, b) <==> RawKeyLe(KeyOfRaw(a), KeyOfRaw(b))
  {}

  lemma {:induction false} InsertRawSorted(r: Raw, s: seq<Raw>)
    requires KeySorted(s, KeyOfRaw, RawKeyLe) && forall x | x in s :: KeyOfRaw(x) != KeyOfRaw(r)
    ensures KeySorted(InsertRaw(r, s), KeyOfRaw, RawKeyLe)
    ensures forall x :: x in InsertRaw(r, s) <==> x == r || x in s
  {
    hide RawLe, RawKeyLe, KeyOfRaw;
    RawKeyOrder();
    if s != [] {
      RawLeByKey(r, s[0]);
      assert s == [s[0]] + s[1..];
      if RawLe(r, s[0]) {
        forall i | 0 <= i < |s| ensures RawKeyLe(KeyOfRaw(r), KeyOfRaw(s[i])) {}
      } else {
        InsertRawSorted(r, s[1..]);
        var t := InsertRaw(r, s[1..]);
        forall x | x in t ensures RawKeyLe(KeyOfRaw(s[0]), KeyOfRaw(x)) && KeyOfRaw(s[0]) != KeyOfRaw(x) {
          if x != r { var i :| 0 <= i < |s[1..]| && s[1..][i] == x; assert s[i + 1] == x; }
        }
      }
    }
  }

  lemma {:induction false} SortRawsSorted(s: seq<Raw>)
    requires DistinctKeys(s)
    ensures KeySorted(SortRaws(s), KeyOfRaw, RawKeyLe)
    ensures forall x :: x in SortRaws(s) <==> x in s
  {
    if s != [] {
      var before := s[..|s| - 1];
      assert s == before + [s[|s| - 1]];
      SortRawsSorted(before);
      InsertRawSorted(s[|s| - 1], SortRaws(before));
    }
  }

  /** With distinct (priority, name) pairs, any way of sorting gives the same text. */
  lemma JoinRawsSame(s: seq<Raw>, t: seq<Raw>)
    requires DistinctKeys(s) && DistinctKeys(t) && forall x :: x in s <==> x in t
    ensures JoinRaws(s) == JoinRaws(t)
  {
    RawKeyOrder();
    SortRawsSorted(s); SortRawsSorted(t);
    KeySortedUnique(SortRaws(s), SortRaws(t), KeyOfRaw, RawKeyLe);
  }

  /** Snippets of different configurations differ in priority or name. */
  ghost predicate RawsDistinct(cs: seq<ApiConfig>) {
    forall i, j | 0 <= i < j < |cs| && cs[i].rawConfig != "" && cs[j].rawConfig != "" ::
      cs[i].rawPriority != cs[j].rawPriority || cs[i].name != cs[j].name
  }

  lemma {:induction false} AllRawsFrom(cs: seq<ApiConfig>)
    ensures forall x :: x in AllRaws(cs) <==> exists c :: c in cs && x in RawsOf(c)
  {
    if cs != [] {
      var before, c := cs[..|cs| - 1], cs[|cs| - 1];
      assert cs == before + [c];
      AllRawsFrom(before);
      assert forall d :: d in cs <==> d in before || d == c;
    }
  }

  lemma DistinctAppended(a: seq<Raw>, b: seq<Raw>)
    requires DistinctKeys(a) && |b| <= 1 && forall x, y | x in a && y in b :: KeyOfRaw(x) != KeyOfRaw(y)
    ensures DistinctKeys(a + b)
  {
    hide KeyOfRaw;
    forall i, j | 0 <= i < j < |a + b| ensures KeyOfRaw((a + b)[i]) != KeyOfRaw((a + b)[j]) {
      if j == |a| { assert (a + b)[j] == b[0] && b[0] in b && (a + b)[i] == a[i]; }
    }
  }

  lemma {:induction false} RawsDistinctKeys(cs: seq<ApiConfig>)
    requires RawsDistinct(cs)
    ensures DistinctKeys(AllRaws(cs))
  {
    if cs != [] {
      var before, c := cs[..|cs| - 1], cs[|cs| - 1];
      RawsDistinctKeys(before);
      AllRawsFrom(before);
      forall x, y | x in AllRaws(before) && y in RawsOf(c) ensures KeyOfRaw(x) != KeyOfRaw(y) {
        var d :| d in before && x in RawsOf(d);
        var i :| 0 <= i < |before| && before[i] == d;
        assert cs[i] == d;
      }
      DistinctAppended(AllRaws(before), RawsOf(c));
    }
  }

  lemma TwoPositions<T>(s: seq<T>, x: T)
    requires multiset(s)[x] >= 2
    ensures exists i, j :: 0 <= i < j < |s| && s[i] == x && s[j] == x
  {
    assert x in multiset(s);
    var i :| 0 <= i < |s| && s[i] == x;
    assert s == s[..i] + [x] + s[i + 1..];
    assert x in multiset(s[..i]) + multiset(s[i + 1..]);
    if x in s[..i] {
      var j :| 0 <= j < i && s[j] == x;
    } else {
      assert x in s[i + 1..];
      var j :| 0 <= j < |s[i + 1..]| && s[i + 1..][j] == x;
      assert s[i + 1 + j] == x;
    }
  }

  lemma CountTwo<T>(s: seq<T>, i: nat, j: nat)
    requires i < j < |s| && s[i] == s[j]
    ensures multiset(s)[s[i]] >= 2
  {
    assert s == s[..j] + [s[j]] + s[j + 1..];
    assert s[..j][i] == s[i];
    assert s[i] in multiset(s[..j]);
  }

  lemma RawsDistinctPermuted(cs: seq<ApiConfig>, ds: seq<ApiConfig>)
    requires multiset(cs) == multiset(ds) && RawsDistinct(cs)
    ensures RawsDistinct(ds)
  {
    forall i, j | 0 <= i < j < |ds| && ds[i].rawConfig != "" && ds[j].rawConfig != ""
      ensures ds[i].rawPriority != ds[j].rawPriority || ds[i].name != ds[j].name {
      SameMembers(cs, ds, ds[i]); SameMembers(cs, ds, ds[j]);
      if ds[i] == ds[j] {
        CountTwo(ds, i, j);
        TwoPositions(cs, ds[i]);
      } else {
        var a :| 0 <= a < |cs| && cs[a] == ds[i];
        var b :| 0 <= b < |cs| && cs[b] == ds[j];
        if a < b {} else { assert b < a; }
      }
    }
  }

  lemma ExtraConfigSame(cs: seq<ApiConfig>, ds: seq<ApiConfig>)
    requires multiset(cs) == multiset(ds) && RawsDistinct(cs)
    ensures JoinRaws(AllRaws(cs)) == JoinRaws(AllRaws(ds))
  {
    RawsDistinctPermuted(cs, ds);
    RawsDistinctKeys(cs); RawsDistinctKeys(ds);
    AllRawsFrom(cs); AllRawsFrom(ds);
    forall x ensures x in AllRaws(cs) <==> x in AllRaws(ds) {
      if x in AllRaws(cs) { var c :| c in cs && x in RawsOf(c); SameMembers(cs, ds, c); }
      if x in AllRaws(ds) { var c :| c in ds && x in RawsOf(c); SameMembers(cs, ds, c); }
    }
    JoinRawsSame(AllRaws(cs), AllRaws(ds));
  }

  // ---- routers

  /** The two lists describe the same neighbors and say the same; what filters they list follows. */
  ghost predicate SameRequests(env: Env, cs: seq<ApiConfig>, ds: seq<ApiConfig>) {
    && (forall f | !AcceptFact(f) :: SaidBy(env, cs, f) <==> SaidBy(env, ds, f))
    && (forall vrf, n :: Configured(cs, vrf, n) <==> Configured(ds, vrf, n))
  }

  lemma RequestsSeen(env: Env, cs: seq<ApiConfig>, ds: seq<ApiConfig>, vrf: string)
    requires SameRequests(env, cs, ds) && Translates(env, cs) && Translates(env, ds)
    ensures SameSeen(TranslateAll(env, cs), TranslateAll(env, ds), vrf)
  {
    hide TranslateAll, Translates, SaidBy, SeenSays, SeenLists, Configured;
    forall f | !IsAccept(f)
      ensures SeenSays(TranslateAll(env, cs), vrf, f) <==> SeenSays(TranslateAll(env, ds), vrf, f)
    {
      AllSays(env, cs, vrf, f); AllSays(env, ds, vrf, f);
      assert !AcceptFact(At(vrf, f));
    }
    forall id, v6, x
      ensures SeenLists(TranslateAll(env, cs), vrf, id, v6, x) <==> SeenLists(TranslateAll(env, ds), vrf, id, v6, x)
    {
      ListedExactly(env, cs, vrf, id, v6, x); ListedExactly(env, ds, vrf, id, v6, x);
    }
  }

  /** Two routers of one VRF, each from one of the results, differ at most in graceful restart. */
  lemma RoutersSame(env: Env, cs: seq<ApiConfig>, ds: seq<ApiConfig>, r: Router, t: Router)
    requires SameRequests(env, cs, ds) && KindsAgree(cs) && SelectorsAgree(env.net, cs)
    requires Convert(env, cs).Ok? && Convert(env, ds).Ok?
    requires r in Convert(env, cs).value.routers && t in Convert(env, ds).value.routers && r.vrf == t.vrf
    ensures ScrubRouter(r) == ScrubRouter(t)
    ensures ReadAlike(cs, ds) ==> r == t
  {
    hide Convert, TranslateAll, TranslateConfig, KindsAgree, SelectorsAgree, NormalRouter, RouterSays, RouterStands,
         FiltersStand, SameSaid, SeenFrom, ScrubRouter, ReadAlike, SameRequests, SameSeen, SeenAgree, SeenSays;
    ResultStands(env, cs, r); ResultStands(env, ds, t);
    var a, b := TranslateAll(env, cs), TranslateAll(env, ds);
    RequestsSeen(env, cs, ds, r.vrf);
    SelectorsMakeAgree(env, cs, r.vrf);
    StandForSame(r, t, a, b, r.vrf);
    StandsAt(r, a, r.vrf); StandsAt(t, b, t.vrf);
    forall n, k | n in r.neighbors && k in t.neighbors && ID(n) == ID(k)
      ensures n.addr == k.addr && n.iface == k.iface && n.alwaysBlock == k.alwaysBlock {
      SameFields(env, cs, ds, r, t, n, k);
    }
    RouterUnique(r, t);
    if ReadAlike(cs, ds) {
      forall n, k | n in r.neighbors && k in t.neighbors && ID(n) == ID(k)
        ensures n.gracefulRestart == k.gracefulRestart
      {
        ReadRestarts(env, cs, ds, r, t, n, k);
      }
      SameRestarts(r, t);
    }
  }

  lemma ReadRestarts(env: Env, cs: seq<ApiConfig>, ds: seq<ApiConfig>, r: Router, t: Router, n: Neighbor, k: Neighbor)
    requires ReadAlike(cs, ds) && Convert(env, cs).Ok? && Convert(env, ds).Ok?
    requires r in Convert(env, cs).value.routers && t in Convert(env, ds).value.routers && r.vrf == t.vrf
    requires n in r.neighbors && k in t.neighbors && ID(n) == ID(k)
    ensures n.gracefulRestart == k.gracefulRestart
  {
    hide Convert, ID, FirstFor, Descriptions, DescribedBy;
    RestartIsFirst(env, cs, r, n);
    RestartIsFirst(env, ds, t, k);
  }

  /** If the results are equal, graceful restart was read alike. */
  lemma EqualReadAlike(env: Env, cs: seq<ApiConfig>, ds: seq<ApiConfig>)
    requires Convert(env, cs).Ok? && Convert(env, ds).Ok?
    requires Convert(env, cs).value.routers == Convert(env, ds).value.routers
    ensures ReadAlike(cs, ds)
  {
    hide Convert, ID, FirstFor, Descriptions, FirstIn;
    forall vrf, id | FirstFor(Descriptions(cs, vrf), vrf, id).Some? && FirstFor(Descriptions(ds, vrf), vrf, id).Some?
      ensures FirstFor(Descriptions(cs, vrf), vrf, id).value.gracefulRestart ==
                FirstFor(Descriptions(ds, vrf), vrf, id).value.gracefulRestart
    {
      var a := FirstFromConfig(cs, vrf, id);
      var r, n := DescribedOccurs(env, cs, a, vrf, id);
      RestartIsFirst(env, cs, r, n);
      RestartIsFirst(env, ds, r, n);
    }
  }

  lemma SameRestarts(r: Router, t: Router)
    requires ScrubRouter(r) == ScrubRouter(t)
    requires forall n, k | n in r.neighbors && k in t.neighbors && ID(n) == ID(k) ::
              n.gracefulRestart == k.gracefulRestart
    ensures r == t
  {
    var a, b := r.neighbors, t.neighbors;
    assert ScrubAll(a) == ScrubAll(b);
    assert |a| == |ScrubAll(a)| && |b| == |ScrubAll(b)|;
    forall i | 0 <= i < |a| ensures a[i] == b[i] {
      assert Scrub(a[i]) == ScrubAll(a)[i] == ScrubAll(b)[i] == Scrub(b[i]);
      ScrubKeepsID(a[i]); ScrubKeepsID(b[i]);
      assert a[i] in a && b[i] in b;
    }
    assert a == b;
  }

  lemma SameFields(env: Env, cs: seq<ApiConfig>, ds: seq<ApiConfig>, r: Router, t: Router, n: Neighbor, k: Neighbor)
    requires SameRequests(env, cs, ds) && KindsAgree(cs) && Translates(env, cs) && Translates(env, ds) && r.vrf == t.vrf
    requires FiltersStand(r.neighbors, TranslateAll(env, cs), r.vrf) &&
              FiltersStand(t.neighbors, TranslateAll(env, ds), t.vrf)
    requires n in r.neighbors && k in t.neighbors && ID(n) == ID(k)
    ensures n.addr == k.addr && n.iface == k.iface && n.alwaysBlock == k.alwaysBlock
  {
    hide TranslateAll, TranslateConfig, ID, SeenFrom, SeenAgree, SeenLists, ListsFilter, PeerSays, NeighborID,
         Configured, SaidBy;
    var p := FieldsFrom(env, cs, r.vrf, n);
    var q := FieldsFrom(env, ds, t.vrf, k);
  }

  // ---- the whole result

  function ScrubRouters(rs: seq<Router>): (r: seq<Router>) {
    seq(|rs|, i requires 0 <= i < |rs| => ScrubRouter(rs[i]))
  }

  /** A configuration without the one field that follows the order of the inputs. */
  function ScrubConfig(c: FrrConfig): (r: FrrConfig) { c.(routers := ScrubRouters(c.routers)) }

  lemma VrfOccurs(env: Env, cs: seq<ApiConfig>, ds: seq<ApiConfig>, r: Router)
    requires SameRequests(env, cs, ds) && Convert(env, cs).Ok? && Convert(env, ds).Ok?
    requires r in Convert(env, cs).value.routers
    ensures exists t :: t in Convert(env, ds).value.routers && t.vrf == r.vrf
  {
    hide Convert, SaidBy, Configured;
    var f := At(r.vrf, Asn(r.asn));
    assert RouterSays(r, Asn(r.asn));
    assert ResultSays(Convert(env, cs).value, f);
    ResultTheorem(env, cs, f);
    ResultTheorem(env, ds, f);
  }

  lemma SameVrfs(env: Env, cs: seq<ApiConfig>, ds: seq<ApiConfig>, a: seq<Router>, b: seq<Router>)
    requires SameRequests(env, cs, ds) && Convert(env, cs).Ok? && Convert(env, ds).Ok?
    requires a == Convert(env, cs).value.routers && b == Convert(env, ds).value.routers
    requires NameSorted(a, VrfOf) && NameSorted(b, VrfOf)
    ensures |a| == |b| && forall i | 0 <= i < |a| :: a[i].vrf == b[i].vrf
  {
    hide Convert, NameSorted, Keys, SameRequests;
    RequestsBack(env, cs, ds);
    forall v ensures v in Keys(a, VrfOf) <==> v in Keys(b, VrfOf) {
      KeyMember(a, VrfOf, v); KeyMember(b, VrfOf, v);
      if x :| x in a && VrfOf(x) == v {
        VrfOccurs(env, cs, ds, x);
        var t :| t in b && t.vrf == x.vrf;
        assert VrfOf(t) == v;
      }
      if y :| y in b && VrfOf(y) == v {
        VrfOccurs(env, ds, cs, y);
        var t :| t in a && t.vrf == y.vrf;
        assert VrfOf(t) == v;
      }
    }
    NamesUnique(a, b, VrfOf);
    forall i | 0 <= i < |a| ensures a[i].vrf == b[i].vrf { assert VrfOf(a[i]) == VrfOf(b[i]); }
  }

  lemma RequestsBack(env: Env, cs: seq<ApiConfig>, ds: seq<ApiConfig>)
    requires SameRequests(env, cs, ds)
    ensures SameRequests(env, ds, cs)
  {
    hide SaidBy, Configured;
  }

  lemma ProfilesSame(env: Env, cs: seq<ApiConfig>, ds: seq<ApiConfig>)
    requires SameRequests(env, cs, ds) && Convert(env, cs).Ok? && Convert(env, ds).Ok?
    ensures Convert(env, cs).value.bfdProfiles == Convert(env, ds).value.bfdProfiles
  {
    hide Convert, SaidBy, NormalRouter, Configured;
    var a, b := Convert(env, cs).value.bfdProfiles, Convert(env, ds).value.bfdProfiles;
    ResultNormal(env, cs); ResultNormal(env, ds);
    forall p ensures p in a <==> p in b {
      ResultTheorem(env, cs, Profile(p)); ResultTheorem(env, ds, Profile(p));
    }
    NameSortedUnique(a, b, NameOf);
  }

  lemma RoutersAlike(env: Env, cs: seq<ApiConfig>, ds: seq<ApiConfig>)
    requires SameRequests(env, cs, ds) && KindsAgree(cs) && SelectorsAgree(env.net, cs)
    requires Convert(env, cs).Ok? && Convert(env, ds).Ok?
    ensures ScrubRouters(Convert(env, cs).value.routers) == ScrubRouters(Convert(env, ds).value.routers)
    ensures Convert(env, cs).value.routers == Convert(env, ds).value.routers <==> ReadAlike(cs, ds)
  {
    hide Convert, TranslateConfig, KindsAgree, SelectorsAgree, NormalRouter, ScrubRouter, ReadAlike, SameRequests;
    var a, b := Convert(env, cs).value.routers, Convert(env, ds).value.routers;
    ResultNormal(env, cs); ResultNormal(env, ds);
    SameVrfs(env, cs, ds, a, b);
    forall i | 0 <= i < |a| ensures ScrubRouter(a[i]) == ScrubRouter(b[i]) && (ReadAlike(cs, ds) ==> a[i] == b[i]) {
      RoutersSame(env, cs, ds, a[i], b[i]);
    }
    if a == b { EqualReadAlike(env, cs, ds); }
  }

  /**
   * Lists that describe the same neighbors, say the same and have the same raw text convert to the
   * same result, graceful restart aside; with it, if and only if it is read alike.  The hypotheses are
   * about what the merge cannot tell apart: neighbors of different kinds under one ID, and filters
   * that share a key.
   */
  lemma SameRequestsSameResult(env: Env, cs: seq<ApiConfig>, ds: seq<ApiConfig>)
    requires SameRequests(env, cs, ds) && KindsAgree(cs) && SelectorsAgree(env.net, cs)
    requires Convert(env, cs).Ok? && Convert(env, ds).Ok? && JoinRaws(AllRaws(cs)) == JoinRaws(AllRaws(ds))
    ensures ScrubConfig(Convert(env, cs).value) == ScrubConfig(Convert(env, ds).value)
    ensures Convert(env, cs) == Convert(env, ds) <==> ReadAlike(cs, ds)
  {
    hide Convert, KindsAgree, SelectorsAgree, ScrubRouters, JoinRaws, ReadAlike, SameRequests, AllRaws;
    RoutersAlike(env, cs, ds);
    ProfilesSame(env, cs, ds);
    ExtraConfigOf(env, cs); ExtraConfigOf(env, ds);
  }

  lemma SameConfigsRequest(env: Env, cs: seq<ApiConfig>, ds: seq<ApiConfig>)
    requires forall c :: c in cs <==> c in ds
    ensures SameRequests(env, cs, ds)
  {
    hide ConfigSays;
    forall vrf, n ensures Configured(cs, vrf, n) <==> Configured(ds, vrf, n) {}
  }

  /**
   * Permuting the configurations changes neither success nor the result, graceful restart aside;
   * with it, if and only if it is read alike.  Snippets have to differ in priority or name.
   */
  lemma OrderIndependence(env: Env, cs: seq<ApiConfig>, ds: seq<ApiConfig>)
    requires multiset(cs) == multiset(ds)
    ensures Convert(env, cs).Ok? <==> Convert(env, ds).Ok?
    ensures Convert(env, cs).Ok? && KindsAgree(cs) && SelectorsAgree(env.net, cs) && RawsDistinct(cs) ==>
              ScrubConfig(Convert(env, cs).value) == ScrubConfig(Convert(env, ds).value)
    ensures Convert(env, cs).Ok? && KindsAgree(cs) && SelectorsAgree(env.net, cs) && RawsDistinct(cs) ==>
              (Convert(env, cs) == Convert(env, ds) <==> ReadAlike(cs, ds))
  {
    hide Convert, KindsAgree, SelectorsAgree, RawsDistinct, ScrubConfig, JoinRaws, ReadAlike, SameRequests;
    forall c ensures c in cs <==> c in ds { SameMembers(cs, ds, c); }
    SameConfigsSaySame(env, cs, ds);
    if Convert(env, cs).Ok? && KindsAgree(cs) && SelectorsAgree(env.net, cs) && RawsDistinct(cs) {
      SameConfigsRequest(env, cs, ds);
      ExtraConfigSame(cs, ds);
      SameRequestsSameResult(env, cs, ds);
    }
  }

  lemma ExtraConfigOf(env: Env, cs: seq<ApiConfig>)
    requires Convert(env, cs).Ok?
    ensures Convert(env, cs).value.extraConfig == JoinRaws(AllRaws(cs))
    ensures Convert(env, cs).value.loglevel == "" && Convert(env, cs).value.hostname == ""
  {
    hide TranslateConfig, Fold, ValidEvpn, RoutersInv, ProfilesInv, JoinRaws, NormalMap, Translates;
    ResultParts(env, cs);
  }

  lemma BroughtToFront(cs: seq<ApiConfig>, a: ApiConfig) returns (rest: seq<ApiConfig>)
    requires a in cs
    ensures multiset([a] + rest) == multiset(cs)
  {
    var i :| 0 <= i < |cs| && cs[i] == a;
    rest := cs[..i] + cs[i + 1..];
    assert cs == cs[..i] + ([a] + cs[i + 1..]);
  }

  /** The configuration that is put first decides. */
  lemma FrontDecides(env: Env, cs: seq<ApiConfig>, a: ApiConfig, r: Router, n: Neighbor)
    requires Convert(env, cs).Ok? && forall ds | multiset(ds) == multiset(cs) :: Convert(env, ds) == Convert(env, cs)
    requires a in cs && r in Convert(env, cs).value.routers && n in r.neighbors && FirstIn(a, r.vrf, ID(n)).Some?
    ensures n.gracefulRestart == FirstIn(a, r.vrf, ID(n)).value.gracefulRestart
  {
    hide Convert, ID, FirstFor, Descriptions, FirstIn;
    var rest := BroughtToFront(cs, a);
    RestartIsFirst(env, [a] + rest, r, n);
    FirstOfFront(a, rest, r.vrf, ID(n));
  }

  lemma SettledReadAlike(cs: seq<ApiConfig>, ds: seq<ApiConfig>)
    requires multiset(cs) == multiset(ds) && RestartsSettled(cs)
    ensures ReadAlike(cs, ds)
  {
    hide FirstFor, Descriptions, DescribedBy;
    forall vrf, id | FirstFor(Descriptions(cs, vrf), vrf, id).Some? && FirstFor(Descriptions(ds, vrf), vrf, id).Some?
      ensures FirstFor(Descriptions(cs, vrf), vrf, id).value.gracefulRestart ==
                FirstFor(Descriptions(ds, vrf), vrf, id).value.gracefulRestart
    {
      var a := FirstFromConfig(cs, vrf, id);
      var b := FirstFromConfig(ds, vrf, id);
      SameMembers(cs, ds, b);
    }
  }

  /**
   * Graceful restart is what can follow the order, and it does so if and only if two configurations
   * disagree in their first descriptions of a neighbor.
   */
  lemma OrderExactly(env: Env, cs: seq<ApiConfig>)
    requires Convert(env, cs).Ok? && KindsAgree(cs) && SelectorsAgree(env.net, cs) && RawsDistinct(cs)
    ensures (forall ds | multiset(ds) == multiset(cs) :: Convert(env, ds) == Convert(env, cs)) <==> RestartsSettled(cs)
  {
    hide Convert, KindsAgree, SelectorsAgree, RawsDistinct, ID, FirstIn;
    if RestartsSettled(cs) {
      forall ds | multiset(ds) == multiset(cs)
        ensures Convert(env, ds) == Convert(env, cs)
      {
        OrderIndependence(env, cs, ds);
        SettledReadAlike(cs, ds);
      }
    }
    if forall ds | multiset(ds) == multiset(cs) :: Convert(env, ds) == Convert(env, cs) {
      forall a, b, vrf, id | a in cs && b in cs && FirstIn(a, vrf, id).Some? && FirstIn(b, vrf, id).Some?
        ensures FirstIn(a, vrf, id).value.gracefulRestart == FirstIn(b, vrf, id).value.gracefulRestart {
        var r, n := DescribedOccurs(env, cs, a, vrf, id);
        FrontDecides(env, cs, a, r, n);
        FrontDecides(env, cs, b, r, n);
      }
    }
  }

  // ---- two configurations whose order matters

  lemma HelpersSay(env: Env, f: PeerFact)
    ensures NeighborSays(HelperNeighbor(env, true), f) <==> NeighborSays(HelperNeighbor(env, false), f)
  {}

  lemma HelpersConvert(env: Env, cs: seq<ApiConfig>)
    requires forall c | c in cs :: c == Helper(true) || c == Helper(false)
    ensures Convert(env, cs).Ok?
  {
    hide Convert, TranslateConfig, NeighborSays, PeerConflict, HelperNeighbor, ConfigSays, Helper;
    ConversionTheorem(env, cs);
    HelperConfig(env, true); HelperConfig(env, false);
    forall f ensures HelperFact(env, f) <==> ConfigSays(env, Helper(true), f)
            ensures HelperFact(env, f) <==> ConfigSays(env, Helper(false), f) {
      HelperSays(env, true, f); HelperSays(env, false, f);
      if f.At? && f.fact.Peer? { HelpersSay(env, f.fact.peer); }
    }
    forall f, g | HelperFact(env, f) && HelperFact(env, g) ensures !Conflict(f, g) {
      if f.fact.Peer? && g.fact.Peer? { HelperUndisputed(env, true, f.fact.peer, g.fact.peer); }
    }
    assert Consistent(env, cs);
    assert forall f | SaidBy(env, cs, f) :: HelperFact(env, f);
  }

  /** What a helper says, whatever it says about graceful restart. */
  ghost predicate HelperFact(env: Env, f: Fact) {
    f == At("", Asn(1)) ||
    (f.At? && f.vrf == "" && f.fact.Peer? && f.fact.id == IFACE && NeighborSays(HelperNeighbor(env, true), f.fact.peer))
  }

  lemma HelperDescribes(restart: bool)
    ensures FirstIn(Helper(restart), "", IFACE) == Some(EvpnPeer(restart))
  {
    var rs, ns := Helper(restart).routers, [EvpnPeer(restart)];
    assert rs[..0] == [] && ns[..0] == [];
    assert DescribedBy(rs[..0], "") == [] && DescribedBy(rs, "") == [] + ns == ns;
    assert FirstFor(ns[..0], "", IFACE) == None;
    assert NeighborID("", IFACE, "") == IFACE;
  }

  lemma HelperFirst(env: Env, restart: bool, r: Router, n: Neighbor)
    requires Convert(env, [Helper(restart), Helper(!restart)]).Ok?
    requires r in Convert(env, [Helper(restart), Helper(!restart)]).value.routers && r.vrf == "" && n in r.neighbors &&
              ID(n) == IFACE
    ensures n.gracefulRestart == restart
  {
    hide Convert, ID, FirstFor, Descriptions, FirstIn, Helper;
    var cs := [Helper(restart), Helper(!restart)];
    HelperDescribes(restart);
    FirstOfFront(Helper(restart), [Helper(!restart)], "", IFACE);
    assert [Helper(restart)] + [Helper(!restart)] == cs;
    RestartIsFirst(env, cs, r, n);
  }

  /** One neighbor, described with and without graceful restart: the order of the two configurations shows. */
  lemma RestartFollowsOrder(env: Env)
    ensures Convert(env, [Helper(true), Helper(false)]).Ok? && Convert(env, [Helper(false), Helper(true)]).Ok?
    ensures Convert(env, [Helper(true), Helper(false)]) != Convert(env, [Helper(false), Helper(true)])
  {
    hide Convert, ID, FirstIn, Helper;
    var a, b := [Helper(true), Helper(false)], [Helper(false), Helper(true)];
    HelpersConvert(env, a); HelpersConvert(env, b);
    HelperDescribes(true);
    var r, n := DescribedOccurs(env, a, Helper(true), "", IFACE);
    HelperFirst(env, true, r, n);
    if Convert(env, a) == Convert(env, b) { HelperFirst(env, false, r, n); }
  }
}
