/** The raw configuration of a result: which snippets it consists of, and in which order. */
module RawText {
  import opened Ordering
  import opened Api
  import opened Conversion
  import opened ConvertFacts
  import opened OrderIndependence

  /** By priority, then by name. */
  ghost predicate Before(a: ApiConfig, b: ApiConfig) {
    a.rawPriority < b.rawPriority || (a.rawPriority == b.rawPriority && (a.name == b.name || Precedes(a.name, b.name)))
  }

  /** The configurations that have raw text, as often as they are listed, in order. */
  ghost predicate InOrder(cs: seq<ApiConfig>, order: seq<ApiConfig>) {
    && (forall c :: multiset(order)[c] == if c.rawConfig != "" then multiset(cs)[c] else 0)
    && (forall i, j | 0 <= i < j < |order| :: Before(order[i], order[j]))
  }

  /** The text of each configuration and a line end, one after the other; `at` says where they start. */
  ghost predicate LaidOut(text: string, order: seq<ApiConfig>, at: seq<nat>) {
    && |at| == |order| + 1 && at[0] == 0 && at[|order|] == |text|
    && forall i, j | 0 <= i < |order| && j == i + 1 :: IsPiece(text, order[i], at[i], at[j])
  }

  ghost predicate IsPiece(text: string, c: ApiConfig, from: nat, to: nat) {
    to == from + |c.rawConfig| + 1 && to <= |text| && text[from..to] == c.rawConfig + "\n"
  }

  // ---- the order

  function RawOf(c: ApiConfig): (r: Raw) { Raw(c.rawPriority, c.name, c.rawConfig) }

  function RawSeq(order: seq<ApiConfig>): (rs: seq<Raw>) {
    seq(|order|, i requires 0 <= i < |order| => RawOf(order[i]))
  }

  lemma RawLeExactly(a: ApiConfig, b: ApiConfig)
    ensures RawLe(RawOf(a), RawOf(b)) <==> Before(a, b)
  {
    StrLeExactly(a.name, b.name);
  }

  lemma BeforeOrder(a: ApiConfig, b: ApiConfig, c: ApiConfig)
    ensures Before(a, b) || Before(b, a)
    ensures Before(a, b) && Before(b, c) ==> Before(a, c)
  {
    hide StrLe, Precedes, Before;
    RawLeExactly(a, b); RawLeExactly(b, a); RawLeExactly(b, c); RawLeExactly(a, c);
    StrOrder();
  }

  lemma {:induction false} Placed(r: Raw, s: seq<Raw>) returns (p: nat)
    ensures p <= |s| && InsertRaw(r, s) == s[..p] + [r] + s[p..]
    ensures (forall i | 0 <= i < p :: !RawLe(r, s[i])) && (p < |s| ==> RawLe(r, s[p]))
  {
    hide RawLe;
    if s == [] || RawLe(r, s[0]) {
      p := 0;
    } else {
      var q := Placed(r, s[1..]);
      p := q + 1;
      assert [s[0]] + s[1..][..q] == s[..p] && s[1..][q..] == s[p..];
    }
  }

  /** One more configuration between those before and those after it. */
  lemma StillBefore(order: seq<ApiConfig>, c: ApiConfig, p: nat)
    requires forall i, j | 0 <= i < j < |order| :: Before(order[i], order[j])
    requires p <= |order| && (forall i | 0 <= i < p :: Before(order[i], c)) && (p < |order| ==> Before(c, order[p]))
    ensures var now := order[..p] + [c] + order[p..]; forall i, j | 0 <= i < j < |now| :: Before(now[i], now[j])
  {
    hide Before;
    forall i | p <= i < |order| ensures Before(c, order[i]) { if p < i { BeforeOrder(c, order[p], order[i]); } }
  }

  lemma OneMore(cs: seq<ApiConfig>, order: seq<ApiConfig>, c: ApiConfig, p: nat)
    requires (forall x :: multiset(order)[x] == if x.rawConfig != "" then multiset(cs)[x] else 0) && c.rawConfig != ""
    requires p <= |order|
    ensures var now := order[..p] + [c] + order[p..];
            forall x :: multiset(now)[x] == if x.rawConfig != "" then multiset(cs + [c])[x] else 0
  {
    assert order == order[..p] + order[p..];
  }

  lemma PlacedAt(order: seq<ApiConfig>, c: ApiConfig) returns (p: nat)
    ensures p <= |order| && RawSeq(order[..p] + [c] + order[p..]) == InsertRaw(RawOf(c), RawSeq(order))
    ensures (forall i | 0 <= i < p :: Before(order[i], c)) && (p < |order| ==> Before(c, order[p]))
  {
    hide Before, RawOf, RawLe;
    var s := RawSeq(order);
    p := Placed(RawOf(c), s);
    assert RawSeq(order[..p] + [c] + order[p..]) == s[..p] + [RawOf(c)] + s[p..];
    forall i | 0 <= i < p ensures Before(order[i], c) {
      assert s[i] == RawOf(order[i]);
      RawLeExactly(c, order[i]);
      BeforeOrder(order[i], c, c);
    }
    if p < |order| {
      assert s[p] == RawOf(order[p]);
      RawLeExactly(c, order[p]);
    }
  }

  /** Putting one more configuration in its place. */
  lemma Inserted(cs: seq<ApiConfig>, order: seq<ApiConfig>, c: ApiConfig) returns (now: seq<ApiConfig>)
    requires InOrder(cs, order) && c.rawConfig != ""
    ensures InOrder(cs + [c], now) && RawSeq(now) == InsertRaw(RawOf(c), RawSeq(order))
  {
    hide Before, RawOf, RawSeq, InsertRaw;
    var p := PlacedAt(order, c);
    now := order[..p] + [c] + order[p..];
    StillBefore(order, c, p);
    OneMore(cs, order, c, p);
  }

  lemma {:induction false} Arranged(cs: seq<ApiConfig>) returns (order: seq<ApiConfig>)
    ensures InOrder(cs, order) && RawSeq(order) == SortRaws(AllRaws(cs))
  {
    hide Before, InsertRaw;
    if cs == [] {
      order := [];
    } else {
      var before, c := cs[..|cs| - 1], cs[|cs| - 1];
      assert cs == before + [c];
      order := Arranged(before);
      if c.rawConfig != "" {
        var rs := AllRaws(cs);
        assert rs == AllRaws(before) + [RawOf(c)] && rs[..|rs| - 1] == AllRaws(before);
        order := Inserted(before, order, c);
      } else {
        assert AllRaws(cs) == AllRaws(before);
        assert multiset(cs) == multiset(before) + multiset{c};
      }
    }
  }

  // ---- the text

  lemma {:induction false} Layout(order: seq<ApiConfig>) returns (at: seq<nat>)
    ensures LaidOut(Concat(RawSeq(order)), order, at)
  {
    if order == [] {
      at := [0];
    } else {
      var before, c := order[..|order| - 1], order[|order| - 1];
      var start := Layout(before);
      var rs, head := RawSeq(order), Concat(RawSeq(before));
      assert rs[..|rs| - 1] == RawSeq(before);
      var text := head + c.rawConfig + "\n";
      at := start + [|text|];
      forall i, j | 0 <= i < |order| && j == i + 1 ensures IsPiece(text, order[i], at[i], at[j]) {
        if i < |before| {
          assert IsPiece(head, before[i], start[i], start[j]);
          assert text[at[i]..at[j]] == head[at[i]..at[j]];
        } else {
          assert text == head + (c.rawConfig + "\n");
        }
      }
    }
  }

  /**
   * The raw configuration of every result: the text of exactly the configurations that have one, each
   * followed by a line end, by priority and then by name.
   */
  lemma RawTextExactly(env: Env, cs: seq<ApiConfig>) returns (order: seq<ApiConfig>, at: seq<nat>)
    requires Convert(env, cs).Ok?
    ensures InOrder(cs, order) && LaidOut(Convert(env, cs).value.extraConfig, order, at)
  {
    hide Convert, AllRaws, SortRaws, Concat, InOrder, LaidOut;
    ExtraConfigOf(env, cs);
    order := Arranged(cs);
    at := Layout(order);
  }
}
