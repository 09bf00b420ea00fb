/** Where the neighbors of a result come from: the API neighbors they are translated from, one for one. */
module Origins {
  import opened Configs
  import opened Facts
  import opened NeighborFacts
  import opened Api
  import opened Translate
  import opened FoldFacts
  import opened ConvertFacts
  import opened Requests

  // ---- one neighbor

  /** The neighbor lists the filter; one that accepts everything lists nothing. */
  ghost predicate AsksListed(net: Net, n: ApiNeighbor, v6: bool, x: Filter) {
    n.toReceive.mode != ALLOW_ALL && AsksFilter(net, n, v6, x)
  }

  /** The fields of a translated neighbor that no merge joins, and what it accepts. */
  ghost predicate FromApi(env: Env, t: Neighbor, n: ApiNeighbor, vrf: string) {
    && t.addr == n.address && t.iface == n.iface && t.vrf == vrf && t.alwaysBlock == env.alwaysBlock
    && t.gracefulRestart == n.gracefulRestart
    && (t.incoming.all <==> n.toReceive.mode == ALLOW_ALL)
    && forall v6, x :: x in Filters(t.incoming, v6) <==> AsksListed(env.net, n, v6, x)
  }

  ghost predicate Aligned(env: Env, ts: seq<Neighbor>, ns: seq<ApiNeighbor>, vrf: string) {
    |ts| == |ns| && forall i | 0 <= i < |ts| :: FromApi(env, ts[i], ns[i], vrf)
  }

  lemma TranslatedFromApi(env: Env, n: ApiNeighbor, inRouter: seq<string>, vrf: string, profiles: set<string>)
    requires TranslateNeighbor(env, n, inRouter, vrf, profiles).Ok?
    ensures FromApi(env, TranslateNeighbor(env, n, inRouter, vrf, profiles).value, n, vrf)
  {
    hide Outgoing, NeighborFamily, NeighborID, AsnFor, ParseTimers, PasswordFor, NeighborName, SelectorFilters,
         AsksFilter, SortFilters;
    forall v6, x ensures x in Filters(Incoming(env.net, n.toReceive).value, v6) <==> AsksListed(env.net, n, v6, x) {
      IncomingExactly(env.net, n, v6, x);
    }
  }

  lemma {:induction false} NeighborsAligned(env: Env, ns: seq<ApiNeighbor>, r: ApiRouter, inRouter: seq<string>,
                                            profiles: set<string>)
    requires TranslateNeighbors(env, ns, r, inRouter, profiles).Ok?
    ensures Aligned(env, TranslateNeighbors(env, ns, r, inRouter, profiles).value, ns, r.vrf)
  {
    hide TranslateNeighbor, FromApi;
    if ns != [] {
      NeighborsAligned(env, ns[..|ns| - 1], r, inRouter, profiles);
      TranslatedFromApi(env, ns[|ns| - 1], inRouter, r.vrf, profiles);
    }
  }

  lemma RouterAligned(env: Env, r: ApiRouter, byVRF: map<string, seq<string>>, profiles: set<string>)
    requires RawRouter(env, r, byVRF, profiles).Ok?
    ensures var t := RawRouter(env, r, byVRF, profiles).value;
            t.vrf == r.vrf && Aligned(env, t.neighbors, r.neighbors, r.vrf)
  {
    hide TranslateNeighbors, ValidOutgoing, ValidPrefixes, ValidImports, Aligned;
    NeighborsAligned(env, r.neighbors, r, r.prefixes + ImportedPrefixes(r.imports, byVRF).value, profiles);
  }

  // ---- all neighbors

  ghost predicate Configured(cs: seq<ApiConfig>, vrf: string, n: ApiNeighbor) {
    exists c, r :: c in cs && r in c.routers && r.vrf == vrf && n in r.neighbors
  }

  /** The translated router a translated neighbor stands in, and the API router it is a translation of. */
  lemma Translation(env: Env, c: ApiConfig, i: nat)
    requires TranslateConfig(env, c).Ok? && i < |c.routers|
    ensures |TranslateConfig(env, c).value| == |c.routers|
    ensures var t, r := TranslateConfig(env, c).value[i], c.routers[i];
            t.vrf == r.vrf && Aligned(env, t.neighbors, r.neighbors, r.vrf)
  {
    hide RawRouters, RawRouter, Aligned, PrefixesForVRFs, ProfileNames;
    RawRoutersFacts(env, c, c.routers);
    RouterAligned(env, c.routers[i], PrefixesForVRFs(c.routers), ProfileNames(c.bfdProfiles));
  }

  /** Every translated neighbor comes from a configured one. */
  lemma AllFromApi(env: Env, cs: seq<ApiConfig>, r: Router, t: Neighbor) returns (n: ApiNeighbor)
    requires Translates(env, cs) && r in TranslateAll(env, cs) && t in r.neighbors
    ensures Configured(cs, r.vrf, n) && FromApi(env, t, n, r.vrf)
  {
    hide TranslateAll, TranslateConfig, FromApi;
    TranslateAllFacts(env, cs);
    var c :| c in cs && r in TranslateConfig(env, c).value;
    assert c.routers != [] by { NothingToTranslate(env, c); }
    Translation(env, c, 0);
    var i :| 0 <= i < |c.routers| && TranslateConfig(env, c).value[i] == r;
    Translation(env, c, i);
    var j :| 0 <= j < |r.neighbors| && r.neighbors[j] == t;
    n := c.routers[i].neighbors[j];
    assert c.routers[i] in c.routers && n in c.routers[i].neighbors;
  }

  lemma NothingToTranslate(env: Env, c: ApiConfig)
    ensures TranslateConfig(env, c).Ok? && c.routers == [] ==> TranslateConfig(env, c).value == []
  {}

  /** Every configured neighbor is translated. */
  lemma AllTranslated(env: Env, cs: seq<ApiConfig>, vrf: string, n: ApiNeighbor) returns (r: Router, t: Neighbor)
    requires Translates(env, cs) && Configured(cs, vrf, n)
    ensures r in TranslateAll(env, cs) && r.vrf == vrf && t in r.neighbors && FromApi(env, t, n, vrf)
  {
    hide TranslateAll, TranslateConfig, FromApi;
    TranslateAllFacts(env, cs);
    var c, a :| c in cs && a in c.routers && a.vrf == vrf && n in a.neighbors;
    var i :| 0 <= i < |c.routers| && c.routers[i] == a;
    Translation(env, c, i);
    r := TranslateConfig(env, c).value[i];
    var j :| 0 <= j < |a.neighbors| && a.neighbors[j] == n;
    t := r.neighbors[j];
    assert r in TranslateConfig(env, c).value;
  }

  lemma FromApiID(env: Env, t: Neighbor, n: ApiNeighbor, vrf: string)
    requires FromApi(env, t, n, vrf)
    ensures ID(t) == NeighborID(n.address, n.iface, vrf)
  {}

  // ---- what is accepted from a neighbor

  /** Some description of the neighbor lists the filter. */
  ghost predicate ListedFor(net: Net, cs: seq<ApiConfig>, vrf: string, id: string, v6: bool, x: Filter) {
    exists n :: Configured(cs, vrf, n) && NeighborID(n.address, n.iface, vrf) == id && AsksListed(net, n, v6, x)
  }

  /** Some description of the neighbor accepts everything. */
  ghost predicate AcceptsAllFor(cs: seq<ApiConfig>, vrf: string, id: string) {
    exists n :: Configured(cs, vrf, n) && NeighborID(n.address, n.iface, vrf) == id && n.toReceive.mode == ALLOW_ALL
  }

  lemma ListedExactly(env: Env, cs: seq<ApiConfig>, vrf: string, id: string, v6: bool, x: Filter)
    requires Translates(env, cs)
    ensures SeenLists(TranslateAll(env, cs), vrf, id, v6, x) <==> ListedFor(env.net, cs, vrf, id, v6, x)
  {
    hide TranslateAll, Translates, Configured, ID, AsksListed, NeighborID;
    if SeenLists(TranslateAll(env, cs), vrf, id, v6, x) {
      var r :| r in TranslateAll(env, cs) && r.vrf == vrf && ListsFilter(r.neighbors, id, v6, x);
      var t :| t in r.neighbors && ID(t) == id && x in Filters(t.incoming, v6);
      var n := AllFromApi(env, cs, r, t);
      FromApiID(env, t, n, vrf);
    }
    if n :| Configured(cs, vrf, n) && NeighborID(n.address, n.iface, vrf) == id && AsksListed(env.net, n, v6, x) {
      var r, t := AllTranslated(env, cs, vrf, n);
      FromApiID(env, t, n, vrf);
      assert ListsFilter(r.neighbors, id, v6, x);
    }
  }

  lemma AllExactly(env: Env, cs: seq<ApiConfig>, vrf: string, id: string)
    requires Translates(env, cs)
    ensures SeenSays(TranslateAll(env, cs), vrf, Peer(id, AcceptsAll)) <==> AcceptsAllFor(cs, vrf, id)
  {
    hide TranslateAll, Translates, Configured, ID, AsksListed, NeighborID;
    var f := Peer(id, AcceptsAll);
    if SeenSays(TranslateAll(env, cs), vrf, f) {
      var r :| r in TranslateAll(env, cs) && r.vrf == vrf && RouterSays(r, f);
      var t :| t in r.neighbors && ID(t) == id && NeighborSays(t, AcceptsAll);
      var n := AllFromApi(env, cs, r, t);
      FromApiID(env, t, n, vrf);
    }
    if n :| Configured(cs, vrf, n) && NeighborID(n.address, n.iface, vrf) == id && n.toReceive.mode == ALLOW_ALL {
      var r, t := AllTranslated(env, cs, vrf, n);
      FromApiID(env, t, n, vrf);
      assert NeighborSays(t, AcceptsAll);
      assert RouterSays(r, f);
    }
  }

  // ---- what no merge can tell apart

  /** Neighbors that share an ID within a VRF are of the same kind: all addresses or all interfaces. */
  ghost predicate KindsAgree(cs: seq<ApiConfig>) {
    forall vrf, n, k | Configured(cs, vrf, n) && Configured(cs, vrf, k) ::
      NeighborID(n.address, n.iface, vrf) == NeighborID(k.address, k.iface, vrf) ==>
          n.address == k.address && n.iface == k.iface
  }

  /** No two different filters of one family listed for the neighbor share a key. */
  ghost predicate KeysApart(net: Net, cs: seq<ApiConfig>, vrf: string, id: string) {
    forall v6, x, y | ListedFor(net, cs, vrf, id, v6, x) && ListedFor(net, cs, vrf, id, v6, y) ::
      FilterKey(x) == FilterKey(y) ==> x == y
  }

  /** So it is for every neighbor of which not everything is accepted. */
  ghost predicate SelectorsAgree(net: Net, cs: seq<ApiConfig>) {
    forall vrf, id | !AcceptsAllFor(cs, vrf, id) :: KeysApart(net, cs, vrf, id)
  }

  lemma ApartExactly(env: Env, cs: seq<ApiConfig>, vrf: string, id: string)
    requires Translates(env, cs)
    ensures SeenAgree(TranslateAll(env, cs), vrf, id) <==> KeysApart(env.net, cs, vrf, id)
  {
    hide TranslateAll, Translates, SeenLists, ListedFor, FilterKey;
    forall v6, x
      ensures SeenLists(TranslateAll(env, cs), vrf, id, v6, x) <==> ListedFor(env.net, cs, vrf, id, v6, x)
    {
      ListedExactly(env, cs, vrf, id, v6, x);
    }
  }

  lemma SelectorsMakeAgree(env: Env, cs: seq<ApiConfig>, vrf: string)
    requires Translates(env, cs) && SelectorsAgree(env.net, cs)
    ensures forall id | !SeenSays(TranslateAll(env, cs), vrf, Peer(id, AcceptsAll)) ::
              SeenAgree(TranslateAll(env, cs), vrf, id)
  {
    hide TranslateAll, Translates, SeenAgree, SeenSays, AcceptsAllFor, KeysApart;
    forall id | !SeenSays(TranslateAll(env, cs), vrf, Peer(id, AcceptsAll))
      ensures SeenAgree(TranslateAll(env, cs), vrf, id)
    {
      AllExactly(env, cs, vrf, id);
      ApartExactly(env, cs, vrf, id);
    }
  }

  lemma FieldsFrom(env: Env, cs: seq<ApiConfig>, vrf: string, n: Neighbor) returns (a: ApiNeighbor)
    requires Translates(env, cs) && SeenFrom(TranslateAll(env, cs), vrf, n)
    ensures Configured(cs, vrf, a) && NeighborID(a.address, a.iface, vrf) == ID(n)
    ensures n.addr == a.address && n.iface == a.iface && n.alwaysBlock == env.alwaysBlock
  {
    hide TranslateAll, Translates, Configured, NeighborID, AsksListed;
    var r, d :| r in TranslateAll(env, cs) && r.vrf == vrf && d in r.neighbors && ID(d) == ID(n) && FirstWins(n, d);
    a := AllFromApi(env, cs, r, d);
    FromApiID(env, d, a, vrf);
  }
}
