/**
 * BGP communities: parsing, printing and ordering (internal/community/community.go).
 * Large communities are three 32-bit decimal fields, section 5 of RFC 8092.
 */
module Communities {
  import opened Decimal

  datatype Community =
    | Legacy(upper: u16, lower: u16)
    | Large(globalAdministrator: u32, localData1: u32, localData2: u32)

  datatype ParseResult = Good(c: Community) | InvalidValue | InvalidFormat

  const MARKER := "large"

  // ---- strings.Split and its inverse

  /** `strings.Split(s, ":")` */
  function Split(s: string): (fs: seq<string>)
    ensures fs != []
  {
    if s == [] then [[]]
    else
      var rest := Split(s[1..]);
      if s[0] == ':' then [[]] + rest else [[s[0]] + rest[0]] + rest[1..]
  }

  function Join(fs: seq<string>): (s: string)
    requires fs != []
  {
    if |fs| == 1 then fs[0] else fs[0] + ":" + Join(fs[1..])
  }

  lemma {:induction false} JoinSplit(s: string)
    ensures Join(Split(s)) == s
  {
    if s != [] {
      JoinSplit(s[1..]);
      var rest, fs := Split(s[1..]), Split(s);
      assert s == [s[0]] + s[1..];
      if s[0] == ':' {
        assert fs[0] == [] && fs[1..] == rest;
      } else {
        assert fs[0] == [s[0]] + rest[0] && fs[1..] == rest[1..];
      }
    }
  }

  lemma {:induction false} SplitHead(f: string, rest: string)
    requires ':' !in f
    ensures Split(f + ":" + rest) == [f] + Split(rest)
  {
    var s := f + ":" + rest;
    if f == [] {
      assert s[1..] == rest;
    } else {
      var tail := f[1..] + ":" + rest;
      SplitHead(f[1..], rest);
      assert s[0] == f[0] && s[1..] == tail;
      var fs := Split(tail);
      assert fs[0] == f[1..] && fs[1..] == Split(rest);
      assert [f[0]] + f[1..] == f;
    }
  }

  lemma {:induction false} SplitWhole(f: string)
    requires ':' !in f
    ensures Split(f) == [f]
  {
    if f != [] {
      SplitWhole(f[1..]);
      assert f == [f[0]] + f[1..];
    }
  }

  // ---- parsing

  predicate FieldsParse(fs: seq<string>, limit: nat) {
    forall i | 0 <= i < |fs| :: ParseUint(fs[i], limit).Number?
  }

  function Parse(c: string): (r: ParseResult) {
    ParseFields(Split(c))
  }

  function ParseFields(fs: seq<string>): (r: ParseResult) {
    if |fs| == 2 then
      if FieldsParse(fs, 0x1_0000)
      then Good(Legacy(ParseUint(fs[0], 0x1_0000).n, ParseUint(fs[1], 0x1_0000).n))
      else InvalidValue
    else if |fs| == 4 then
      if fs[0] == MARKER && FieldsParse(fs[1..], 0x1_0000_0000)
      then
        assert fs[1] == fs[1..][0] && fs[2] == fs[1..][1] && fs[3] == fs[1..][2];
        Good(Large(ParseUint(fs[1], 0x1_0000_0000).n, ParseUint(fs[2], 0x1_0000_0000).n,
                   ParseUint(fs[3], 0x1_0000_0000).n))
      else InvalidValue
    else InvalidFormat
  }

  /** `New`: the fields go one by one into a fixed-size array. */
  method New(c: string) returns (r: ParseResult)
    ensures r == Parse(c)
  {
    var fs := Split(c);
    if |fs| == 2 {
      var fields := new u16[2](_ => 0);
      for i := 0 to 2
        invariant FieldsParse(fs[..i], 0x1_0000)
        invariant forall k | 0 <= k < i :: ParseUint(fs[k], 0x1_0000) == Number(fields[k])
      {
        var b := ParseUint(fs[i], 0x1_0000);
        if b.Bad? { return InvalidValue; }
        fields[i] := b.n;
        assert fs[..i + 1] == fs[..i] + [fs[i]];
      }
      assert fs[..2] == fs;
      return Good(Legacy(fields[0], fields[1]));
    }
    if |fs| == 4 {
      if fs[0] != MARKER { return InvalidValue; }
      var fields := new u32[3](_ => 0);
      for i := 1 to 4
        invariant FieldsParse(fs[1..i], 0x1_0000_0000)
        invariant forall k | 0 <= k < i - 1 :: ParseUint(fs[1..][k], 0x1_0000_0000) == Number(fields[k])
      {
        var b := ParseUint(fs[i], 0x1_0000_0000);
        if b.Bad? {
          assert fs[1..][i - 1] == fs[i];
          return InvalidValue;
        }
        fields[i - 1] := b.n;
        assert fs[1..i + 1] == fs[1..i] + [fs[i]];
      }
      assert fs[1..4] == fs[1..];
      assert fs[1] == fs[1..][0] && fs[2] == fs[1..][1] && fs[3] == fs[1..][2];
      return Good(Large(fields[0], fields[1], fields[2]));
    }
    return InvalidFormat;
  }

  // ---- printing

  /** `String()`; the marker of a large community is dropped. */
  function String(c: Community): (s: string) {
    match c
    case Legacy(u, l) => Dec(u) + ":" + Dec(l)
    case Large(g, a, b) => Dec(g) + ":" + (Dec(a) + ":" + Dec(b))
  }

  /** The spelling that `New` reads back: large communities carry their marker. */
  function Spell(c: Community): (s: string) {
    if c.Large? then MARKER + ":" + String(c) else String(c)
  }

  lemma SplitString(c: Community)
    ensures c.Legacy? ==> Split(String(c)) == [Dec(c.upper), Dec(c.lower)]
    ensures c.Large? ==> Split(String(c)) == [Dec(c.globalAdministrator), Dec(c.localData1), Dec(c.localData2)]
  {
    match c
    case Legacy(u, l) =>
      DigitsExclude(Dec(u), ':'); DigitsExclude(Dec(l), ':');
      SplitHead(Dec(u), Dec(l));
      SplitWhole(Dec(l));
    case Large(g, a, b) =>
      DigitsExclude(Dec(g), ':'); DigitsExclude(Dec(a), ':'); DigitsExclude(Dec(b), ':');
      SplitHead(Dec(g), Dec(a) + ":" + Dec(b));
      SplitHead(Dec(a), Dec(b));
      SplitWhole(Dec(b));
  }

  lemma ParseFieldsLegacy(f: string, g: string, u: u16, l: u16)
    ensures ParseFields([f, g]) == Good(Legacy(u, l)) <==> Denotes(f, u) && Denotes(g, l)
  {
    var fs := [f, g];
    assert FieldsParse(fs, 0x1_0000) <==> ParseUint(fs[0], 0x1_0000).Number? && ParseUint(fs[1], 0x1_0000).Number?;
  }

  lemma ParseFieldsLarge(m: string, x: string, y: string, z: string, g: u32, a: u32, b: u32)
    ensures ParseFields([m, x, y, z]) == Good(Large(g, a, b)) <==>
            m == MARKER && Denotes(x, g) && Denotes(y, a) && Denotes(z, b)
  {
    var fs := [m, x, y, z];
    assert fs[1..] == [x, y, z];
    assert FieldsParse([x, y, z], 0x1_0000_0000) <==>
      ParseUint([x, y, z][0], 0x1_0000_0000).Number? && ParseUint([x, y, z][1], 0x1_0000_0000).Number? &&
      ParseUint([x, y, z][2], 0x1_0000_0000).Number?;
  }

  lemma SplitMarked(s: string)
    ensures Split(MARKER + ":" + s) == [MARKER] + Split(s)
  {
    SplitHead(MARKER, s);
  }

  /** Parsing inverts printing. */
  lemma RoundTrip(c: Community)
    ensures Parse(Spell(c)) == Good(c)
  {
    SplitString(c);
    match c
    case Legacy(u, l) => ParseFieldsLegacy(Dec(u), Dec(l), u, l);
    case Large(g, a, b) =>
      SplitMarked(String(c));
      assert [MARKER] + Split(String(c)) == [MARKER, Dec(g), Dec(a), Dec(b)];
      ParseFieldsLarge(MARKER, Dec(g), Dec(a), Dec(b), g, a, b);
  }

  /** Without its marker a large community is never read as a community. */
  lemma LargeNeedsMarker(c: Community)
    requires c.Large?
    ensures Parse(String(c)) == InvalidFormat
  {
    SplitString(c);
  }

  ghost predicate SpellsLegacy(s: string, f: string, g: string, c: Community) {
    c.Legacy? && s == f + ":" + g && Denotes(f, c.upper) && Denotes(g, c.lower)
  }

  ghost predicate SpellsLarge(s: string, x: string, y: string, z: string, c: Community) {
    c.Large? && s == MARKER + ":" + (x + ":" + (y + ":" + z)) &&
    Denotes(x, c.globalAdministrator) && Denotes(y, c.localData1) && Denotes(z, c.localData2)
  }

  lemma AcceptedSpells(s: string, c: Community)
    requires Parse(s) == Good(c)
    ensures (exists f, g :: SpellsLegacy(s, f, g, c)) || (exists x, y, z :: SpellsLarge(s, x, y, z, c))
  {
    var fs := Split(s);
    JoinSplit(s);
    if |fs| == 2 {
      assert fs == [fs[0], fs[1]] && fs[1..] == [fs[1]];
      ParseFieldsLegacy(fs[0], fs[1], c.upper, c.lower);
      assert SpellsLegacy(s, fs[0], fs[1], c);
    } else {
      assert fs == [fs[0], fs[1], fs[2], fs[3]];
      assert fs[1..] == [fs[1], fs[2], fs[3]] && fs[1..][1..] == [fs[2], fs[3]] && [fs[2], fs[3]][1..] == [fs[3]];
      assert Join(fs[1..]) == fs[1] + ":" + Join([fs[2], fs[3]]);
      ParseFieldsLarge(fs[0], fs[1], fs[2], fs[3], c.globalAdministrator, c.localData1, c.localData2);
      assert SpellsLarge(s, fs[1], fs[2], fs[3], c);
    }
  }

  lemma SpelledAcceptedLegacy(s: string, f: string, g: string, c: Community)
    requires SpellsLegacy(s, f, g, c)
    ensures Parse(s) == Good(c)
  {
    DigitsExclude(f, ':'); DigitsExclude(g, ':');
    SplitHead(f, g); SplitWhole(g);
    assert [f] + [g] == [f, g];
    ParseFieldsLegacy(f, g, c.upper, c.lower);
  }

  lemma SpelledAcceptedLarge(s: string, x: string, y: string, z: string, c: Community)
    requires SpellsLarge(s, x, y, z, c)
    ensures Parse(s) == Good(c)
  {
    DigitsExclude(x, ':'); DigitsExclude(y, ':'); DigitsExclude(z, ':');
    SplitMarked(x + ":" + (y + ":" + z));
    SplitHead(x, y + ":" + z); SplitHead(y, z); SplitWhole(z);
    assert [MARKER] + ([x] + ([y] + [z])) == [MARKER, x, y, z];
    ParseFieldsLarge(MARKER, x, y, z, c.globalAdministrator, c.localData1, c.localData2);
  }

  /**
   * What `New` accepts, both ways: exactly the strings that spell a community up to leading
   * zeros in the decimal fields.
   */
  lemma ParseAccepts(s: string, c: Community)
    ensures Parse(s) == Good(c) <==>
            (exists f, g :: SpellsLegacy(s, f, g, c)) || (exists x, y, z :: SpellsLarge(s, x, y, z, c))
  {
    if Parse(s) == Good(c) { AcceptedSpells(s, c); }
    if f, g :| SpellsLegacy(s, f, g, c) { SpelledAcceptedLegacy(s, f, g, c); }
    if x, y, z :| SpellsLarge(s, x, y, z, c) { SpelledAcceptedLarge(s, x, y, z, c); }
  }

  ghost predicate Denotes(f: string, n: nat) {
    f != [] && AllDigits(f) && Value(f) == n
  }

  /** Printing is injective, even between the two kinds. */
  lemma StringInjective(c: Community, d: Community)
    requires String(c) == String(d)
    ensures c == d
  {
    SplitString(c); SplitString(d);
    var fc, fd := Split(String(c)), Split(String(d));
    assert forall i | 0 <= i < |fc| :: fc[i] == fd[i];
    if c.Legacy? {
      DecInjective(c.upper, d.upper); DecInjective(c.lower, d.lower);
    } else {
      DecInjective(c.globalAdministrator, d.globalAdministrator);
      DecInjective(c.localData1, d.localData1);
      DecInjective(c.localData2, d.localData2);
    }
  }

  lemma StringHasNoHyphen(c: Community)
    ensures '-' !in String(c)
  {
    match c
    case Legacy(u, l) => DigitsExclude(Dec(u), '-'); DigitsExclude(Dec(l), '-');
    case Large(g, a, b) => DigitsExclude(Dec(g), '-'); DigitsExclude(Dec(a), '-'); DigitsExclude(Dec(b), '-');
  }

  // ---- ordering

  /** `(upper << 16) + lower`; the result type says that it does not overflow. */
  function ToUint32(c: Community): (n: u32)
    requires c.Legacy?
    ensures n / 0x1_0000 == c.upper && n % 0x1_0000 == c.lower
  {
    c.upper * 0x1_0000 + c.lower
  }

  function AsLarge(c: Community): (l: Community)
    ensures l.Large?
  {
    if c.Legacy? then Large(ToUint32(c), 0, 0) else c
  }

  predicate LessThan(b: Community, c: Community) {
    var bl, cl := AsLarge(b), AsLarge(c);
    || bl.globalAdministrator < cl.globalAdministrator
    || (bl.globalAdministrator == cl.globalAdministrator &&
        (bl.localData1 < cl.localData1 || (bl.localData1 == cl.localData1 && bl.localData2 < cl.localData2)))
  }

  ghost predicate Tied(b: Community, c: Community) { !LessThan(b, c) && !LessThan(c, b) }

  /**
   * `LessThan` is a strict weak order.  Its ties are exactly the pairs that name the same large
   * community, so two different legacy communities never tie and legacy u:l ties with
   * (65536u+l):0:0.
   */
  lemma LessThanStrictWeakOrder(b: Community, c: Community, d: Community)
    ensures !LessThan(b, b)
    ensures LessThan(b, c) && LessThan(c, d) ==> LessThan(b, d)
    ensures Tied(b, c) && Tied(c, d) ==> Tied(b, d)
    ensures Tied(b, c) <==> b == c || (b.Legacy? && c == Large(0x1_0000 * b.upper + b.lower, 0, 0))
                              || (c.Legacy? && b == Large(0x1_0000 * c.upper + c.lower, 0, 0))
  {
    if b.Legacy? && c.Legacy? && Tied(b, c) {
      assert ToUint32(b) == ToUint32(c);
      assert b.upper == c.upper && b.lower == c.lower;
    }
  }

  /** A community as one number: the parts of a large one are the digits, a legacy one is the first digit. */
  function Rank(c: Community): (n: nat) {
    match c
    case Legacy(u, l) => (0x1_0000 * u + l) * 0x1_0000_0000 * 0x1_0000_0000
    case Large(g, a, b) => (g * 0x1_0000_0000 + a) * 0x1_0000_0000 + b
  }

  /** `LessThan` goes by these numbers. */
  lemma LessThanExactly(b: Community, c: Community)
    ensures LessThan(b, c) <==> Rank(b) < Rank(c)
  {
    RankOf(b); RankOf(c);
  }

  lemma RankOf(c: Community)
    ensures var l := AsLarge(c);
            Rank(c) == (l.globalAdministrator * 0x1_0000_0000 + l.localData1) * 0x1_0000_0000 + l.localData2
  {}
}
