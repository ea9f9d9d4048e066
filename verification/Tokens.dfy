/** The table of names a temporal property's type may be given by, built from the
    type catalog by passes over maps that are visited in any order. */
module Tokens {
  import opened Wrappers

  /** A temporal type of the catalog. */
  datatype CatalogType = CatalogType(name: string, spatial: bool, mfjson: string, base: string)

  /** A type the tier can carry as a temporal property. */
  datatype TType = TType(mf: string, col: string, cast: string, ogc: string, defInterp: string)

  datatype Scalar = Scalar(token: string, defInterp: string)

  const OGC_SCALAR: map<string, Scalar> := map[
    "bool" := Scalar("TBoolean", "Step"),
    "int4" := Scalar("TInteger", "Step"),
    "int8" := Scalar("TInteger", "Step"),
    "float8" := Scalar("TReal", "Linear"),
    "text" := Scalar("TText", "Discrete")
  ]

  function LowerChar(c: char): char {
    if 'A' <= c <= 'Z' then c - 'A' + 'a' else c
  }

  function Lower(s: string): string {
    seq(|s|, i requires 0 <= i < |s| => LowerChar(s[i]))
  }

  function Column(name: string): string {
    "v" + if |name| > 0 && name[0] == 't' then name[1..] else name
  }

  // The types that can be carried.

  predicate Carriable(t: CatalogType) {
    !t.spatial && t.mfjson != "" && t.base in OGC_SCALAR
  }

  function TypeOf(t: CatalogType): TType
    requires t.base in OGC_SCALAR
  {
    TType(t.mfjson, Column(t.name), t.name, OGC_SCALAR[t.base].token, OGC_SCALAR[t.base].defInterp)
  }

  type Types = map<string, TType>

  /** Each entry comes from the last type of its name that can be carried. */
  ghost predicate CarriesLast(catalog: seq<CatalogType>, m: Types) {
    (forall k :: 0 <= k < |catalog| && Carriable(catalog[k]) ==> catalog[k].name in m)
    && forall name :: name in m ==> exists k :: IsLast(catalog, name, k) && m[name] == TypeOf(catalog[k])
  }

  ghost predicate IsLast(catalog: seq<CatalogType>, name: string, k: int) {
    0 <= k < |catalog| && Carriable(catalog[k]) && catalog[k].name == name
    && forall j :: k < j < |catalog| && Carriable(catalog[j]) ==> catalog[j].name != name
  }

  lemma NothingCarried()
    ensures CarriesLast([], map[])
  {}

  lemma CarriesNext(catalog: seq<CatalogType>, k: nat, m: Types)
    requires k < |catalog| && CarriesLast(catalog[..k], m)
    ensures CarriesLast(catalog[..k + 1],
                        if Carriable(catalog[k]) then m[catalog[k].name := TypeOf(catalog[k])] else m)
  {
    hide TypeOf;
    var was, now, t := catalog[..k], catalog[..k + 1], catalog[k];
    assert now[k] == t && forall j :: 0 <= j < k ==> now[j] == was[j];
    forall name | name in m && !(Carriable(t) && t.name == name)
      ensures exists j :: IsLast(now, name, j) && m[name] == TypeOf(now[j])
    {
      var j :| IsLast(was, name, j) && m[name] == TypeOf(was[j]);
      assert IsLast(now, name, j);
    }
    assert Carriable(t) ==> IsLast(now, t.name, k);
  }

  /** A type the tier can carry, told by the catalog alone. */
  ghost predicate Fit(t: CatalogType) {
    !t.spatial && t.mfjson != "" && t.base in {"bool", "int4", "int8", "float8", "text"}
  }

  /** The entry carries the type: by its own name and form, in the column named after it
      with a v for a leading t, under the token of its base, and with that base's
      interpolation for a body that names none. */
  ghost predicate CarriedAs(t: CatalogType, e: TType) {
    && e.mf == t.mfjson && e.cast == t.name
    && |e.col| > 0 && e.col[0] == 'v'
    && (t.name == "t" + e.col[1..] || (t.name == e.col[1..] && (t.name == "" || t.name[0] != 't')))
    && (t.base == "bool" ==> e.ogc == "TBoolean" && e.defInterp == "Step")
    && (t.base == "int4" ==> e.ogc == "TInteger" && e.defInterp == "Step")
    && (t.base == "int8" ==> e.ogc == "TInteger" && e.defInterp == "Step")
    && (t.base == "float8" ==> e.ogc == "TReal" && e.defInterp == "Linear")
    && (t.base == "text" ==> e.ogc == "TText" && e.defInterp == "Discrete")
  }

  ghost predicate LastFit(catalog: seq<CatalogType>, name: string, k: int) {
    0 <= k < |catalog| && Fit(catalog[k]) && catalog[k].name == name
    && forall j :: k < j < |catalog| && Fit(catalog[j]) ==> catalog[j].name != name
  }

  /** Every fit type has an entry, and every entry carries the last fit type of its
      name. */
  ghost predicate CarriesFit(catalog: seq<CatalogType>, m: Types) {
    (forall k :: 0 <= k < |catalog| && Fit(catalog[k]) ==> catalog[k].name in m)
    && forall name :: name in m ==> exists k :: LastFit(catalog, name, k) && CarriedAs(catalog[k], m[name])
  }

  lemma FitIsCarriable(t: CatalogType)
    ensures Fit(t) <==> Carriable(t)
    ensures Fit(t) ==> CarriedAs(t, TypeOf(t))
  {
    assert t.name != [] && t.name[0] == 't' ==> t.name == "t" + t.name[1..];
  }

  lemma LastIsFit(catalog: seq<CatalogType>, m: Types)
    requires CarriesLast(catalog, m)
    ensures CarriesFit(catalog, m)
  {
    forall k | 0 <= k < |catalog| ensures Fit(catalog[k]) <==> Carriable(catalog[k]) {
      FitIsCarriable(catalog[k]);
    }
    hide Fit, CarriedAs, TypeOf;
    forall name | name in m ensures exists k :: LastFit(catalog, name, k) && CarriedAs(catalog[k], m[name]) {
      var k :| IsLast(catalog, name, k) && m[name] == TypeOf(catalog[k]);
      FitIsCarriable(catalog[k]);
      assert LastFit(catalog, name, k);
    }
  }

  method ScalarTemporalTypes(catalog: seq<CatalogType>) returns (m: Types)
    ensures CarriesLast(catalog, m)
    ensures CarriesFit(catalog, m)
  {
    hide CarriesLast, TypeOf;
    m := map[];
    NothingCarried();
    assert catalog[..0] == [];
    for k := 0 to |catalog|
      invariant CarriesLast(catalog[..k], m)
    {
      var t := catalog[k];
      CarriesNext(catalog, k, m);
      if t.spatial || t.mfjson == "" || t.base !in OGC_SCALAR {
        continue;
      }
      m := m[t.name := TypeOf(t)];
    }
    assert catalog[..|catalog|] == catalog;
    LastIsFit(catalog, m);
  }

  // Who answers to a token.

  function Carriers(scalar: Types, names: set<string>, token: string): set<string> {
    set n | n in names && n in scalar && scalar[n].ogc == token
  }

  /** The type an OGC token stands for: the only one that carries it, or where
      several do the one that is named for it, if any. */
  ghost function Owner(scalar: Types, canonical: map<string, string>, token: string): string {
    var all := Carriers(scalar, scalar.Keys, token);
    if |all| == 1 then var n :| n in all; n
    else if token in canonical then canonical[token] else ""
  }

  /** An OGC token that some type carries and that stands for a type. */
  ghost predicate Stands(scalar: Types, canonical: map<string, string>, token: string) {
    Carried(scalar, token) && Owner(scalar, canonical, token) in scalar
  }

  ghost predicate Carried(scalar: Types, token: string) {
    exists n :: n in scalar && scalar[n].ogc == token
  }

  ghost predicate Claims(scalar: Types, canonical: map<string, string>, token: string, name: string) {
    Stands(scalar, canonical, token) && Lower(token) == name
  }

  /** What a name may resolve to: an alias before an OGC token before a type name. */
  ghost predicate Resolves(scalar: Types, canonical: map<string, string>, alias: map<string, string>,
                           name: string, r: Option<TType>)
  {
    if name in alias && alias[name] in scalar then r == Some(scalar[alias[name]])
    else if exists g :: Claims(scalar, canonical, g, name) then
      exists g :: Claims(scalar, canonical, g, name) && r == Some(scalar[Owner(scalar, canonical, g)])
    else if name in scalar then r == Some(scalar[name])
    else r == None
  }

  function Find(m: Types, name: string): Option<TType> {
    if name in m then Some(m[name]) else None
  }

  ghost predicate Built(scalar: Types, canonical: map<string, string>, alias: map<string, string>, m: Types) {
    forall name :: Resolves(scalar, canonical, alias, name, Find(m, name))
  }

  // Building the table.

  ghost predicate Collected(scalar: Types, names: set<string>, byToken: map<string, seq<string>>) {
    (forall n :: n in names && n in scalar ==> scalar[n].ogc in byToken)
    && forall g :: g in byToken ==> ListsCarriers(byToken[g], Carriers(scalar, names, g))
  }

  ghost predicate ListsCarriers(list: seq<string>, carriers: set<string>) {
    list != [] && |list| == |carriers| && forall n :: n in list <==> n in carriers
  }

  function Listed(byToken: map<string, seq<string>>, token: string, name: string): map<string, seq<string>> {
    byToken[token := (if token in byToken then byToken[token] else []) + [name]]
  }

  /** The three passes, each over a map in any order. */
  method TPropTokens(scalar: Types, canonical: map<string, string>, alias: map<string, string>) returns (m: Types)
    ensures Built(scalar, canonical, alias, m)
  {
    var byToken;
    m, byToken := AddNames(scalar);
    var tokens := AddTokens(scalar, canonical, byToken, m);
    m := AddAliases(scalar, alias, tokens);
    AllAdded(scalar, canonical, alias, byToken.Keys, tokens, m);
  }

  method AddNames(scalar: Types) returns (m: Types, byToken: map<string, seq<string>>)
    ensures m == scalar
    ensures Collected(scalar, scalar.Keys, byToken)
  {
    hide Collected, Listed, Copied;
    m, byToken := map[], map[];
    var todo := scalar.Keys;
    NothingCollected(scalar);
    assert scalar.Keys - todo == {};
    while todo != {}
      invariant todo <= scalar.Keys
      invariant Copied(scalar, scalar.Keys - todo, m)
      invariant Collected(scalar, scalar.Keys - todo, byToken)
      decreases |todo|
    {
      var n :| n in todo;
      var tt := scalar[n];
      ghost var done := scalar.Keys - todo;
      CollectOne(scalar, done, byToken, n);
      CopyOne(scalar, done, m, n);
      m := m[n := tt];
      byToken := Listed(byToken, tt.ogc, n);
      todo := todo - {n};
      assert scalar.Keys - todo == done + {n};
    }
    assert scalar.Keys - todo == scalar.Keys;
    AllCopied(scalar, m);
  }

  lemma NothingCollected(scalar: Types)
    ensures Collected(scalar, {}, map[]) && Copied(scalar, {}, map[])
  {}

  ghost predicate Copied(scalar: Types, done: set<string>, m: Types) {
    m.Keys == done && forall n :: n in done ==> n in scalar && m[n] == scalar[n]
  }

  lemma CopyOne(scalar: Types, done: set<string>, m: Types, n: string)
    requires Copied(scalar, done, m) && n in scalar
    ensures Copied(scalar, done + {n}, m[n := scalar[n]])
  {}

  lemma AllCopied(scalar: Types, m: Types)
    requires Copied(scalar, scalar.Keys, m)
    ensures m == scalar
  {}

  lemma CollectOne(scalar: Types, done: set<string>, byToken: map<string, seq<string>>, n: string)
    requires Collected(scalar, done, byToken) && n in scalar && n !in done
    ensures var g := scalar[n].ogc;
            Collected(scalar, done + {n}, Listed(byToken, g, n))
  {
    var g := scalar[n].ogc;
    var next := Listed(byToken, g, n);
    CarriersNext(scalar, done, n);
    NoCarriers(scalar, done, byToken, g);
    hide Carriers, ListsCarriers;
    forall h | h in next ensures ListsCarriers(next[h], Carriers(scalar, done + {n}, h)) {
      if h == g {
        ListNext(if g in byToken then byToken[g] else [], Carriers(scalar, done, g), n);
      }
    }
  }

  lemma CarriersNext(scalar: Types, done: set<string>, n: string)
    requires n in scalar && n !in done
    ensures forall h :: h != scalar[n].ogc ==> Carriers(scalar, done + {n}, h) == Carriers(scalar, done, h)
    ensures Carriers(scalar, done + {n}, scalar[n].ogc) == Carriers(scalar, done, scalar[n].ogc) + {n}
    ensures n !in Carriers(scalar, done, scalar[n].ogc)
  {}

  lemma NoCarriers(scalar: Types, done: set<string>, byToken: map<string, seq<string>>, g: string)
    requires Collected(scalar, done, byToken)
    ensures g !in byToken ==> Carriers(scalar, done, g) == {}
  {}

  lemma ListNext(list: seq<string>, carriers: set<string>, n: string)
    requires n !in carriers && ((list == [] && carriers == {}) || ListsCarriers(list, carriers))
    ensures ListsCarriers(list + [n], carriers + {n})
  {}

  /** What a name resolves to once the tokens in done are added to the type names. */
  ghost predicate Settled(scalar: Types, canonical: map<string, string>, done: set<string>, name: string,
                          r: Option<TType>)
  {
    if exists g :: g in done && Claims(scalar, canonical, g, name) then
      exists g :: g in done && Claims(scalar, canonical, g, name) && r == Some(scalar[Owner(scalar, canonical, g)])
    else r == Find(scalar, name)
  }

  ghost predicate TokensAdded(scalar: Types, canonical: map<string, string>, done: set<string>, m: Types) {
    forall name :: Settled(scalar, canonical, done, name, Find(m, name))
  }

  method AddTokens(scalar: Types, canonical: map<string, string>, byToken: map<string, seq<string>>, names: Types)
    returns (m: Types)
    requires names == scalar && Collected(scalar, scalar.Keys, byToken)
    ensures TokensAdded(scalar, canonical, byToken.Keys, m)
    ensures forall g, name :: Claims(scalar, canonical, g, name) ==> g in byToken
  {
    hide TokensAdded, Owner, Lower;
    m := names;
    NoTokenYet(scalar, canonical);
    var todo := byToken.Keys;
    assert byToken.Keys - todo == {};
    while todo != {}
      invariant todo <= byToken.Keys
      invariant TokensAdded(scalar, canonical, byToken.Keys - todo, m)
      decreases |todo|
    {
      var g :| g in todo;
      ghost var done := byToken.Keys - todo;
      var list := byToken[g];
      var owner := if |list| == 1 then list[0] else if g in canonical then canonical[g] else "";
      OwnerOfList(scalar, canonical, g, list);
      AddToken(scalar, canonical, done, m, g);
      if owner in scalar {
        m := m[Lower(g) := scalar[owner]];
      }
      todo := todo - {g};
      assert byToken.Keys - todo == done + {g};
    }
    assert byToken.Keys - todo == byToken.Keys;
  }

  lemma NoTokenYet(scalar: Types, canonical: map<string, string>)
    ensures TokensAdded(scalar, canonical, {}, scalar)
  {}

  lemma OwnerOfList(scalar: Types, canonical: map<string, string>, g: string, list: seq<string>)
    requires ListsCarriers(list, Carriers(scalar, scalar.Keys, g))
    ensures Owner(scalar, canonical, g) ==
            if |list| == 1 then list[0] else if g in canonical then canonical[g] else ""
    ensures Carried(scalar, g)
  {
    var all := Carriers(scalar, scalar.Keys, g);
    assert list[0] in all;
    if |all| == 1 {
      assert forall n :: n in all ==> n == list[0];
    }
  }

  lemma AddToken(scalar: Types, canonical: map<string, string>, done: set<string>, m: Types, g: string)
    requires TokensAdded(scalar, canonical, done, m) && Carried(scalar, g)
    ensures var owner := Owner(scalar, canonical, g);
            TokensAdded(scalar, canonical, done + {g}, if owner in scalar then m[Lower(g) := scalar[owner]] else m)
  {
    hide Owner, Lower;
    var owner := Owner(scalar, canonical, g);
    var next := if owner in scalar then m[Lower(g) := scalar[owner]] else m;
    forall name ensures Settled(scalar, canonical, done + {g}, name, Find(next, name)) {
      assert Settled(scalar, canonical, done, name, Find(m, name));
      if owner in scalar && Lower(g) == name {
        assert g in done + {g} && Claims(scalar, canonical, g, name);
      } else {
        assert !Claims(scalar, canonical, g, name);
      }
    }
  }

  ghost predicate AliasesAdded(scalar: Types, alias: map<string, string>, done: set<string>, tokens: Types, m: Types) {
    forall name :: Find(m, name) ==
      if name in done && name in alias && alias[name] in scalar then Some(scalar[alias[name]]) else Find(tokens, name)
  }

  method AddAliases(scalar: Types, alias: map<string, string>, tokens: Types) returns (m: Types)
    ensures AliasesAdded(scalar, alias, alias.Keys, tokens, m)
  {
    m := tokens;
    var todo := alias.Keys;
    assert alias.Keys - todo == {};
    while todo != {}
      invariant todo <= alias.Keys
      invariant AliasesAdded(scalar, alias, alias.Keys - todo, tokens, m)
      decreases |todo|
    {
      var name :| name in todo;
      if alias[name] in scalar {
        m := m[name := scalar[alias[name]]];
      }
      todo := todo - {name};
    }
    assert alias.Keys - todo == alias.Keys;
  }

  lemma AllAdded(scalar: Types, canonical: map<string, string>, alias: map<string, string>, all: set<string>,
                 tokens: Types, m: Types)
    requires TokensAdded(scalar, canonical, all, tokens)
    requires forall g, name :: Claims(scalar, canonical, g, name) ==> g in all
    requires AliasesAdded(scalar, alias, alias.Keys, tokens, m)
    ensures Built(scalar, canonical, alias, m)
  {
    hide Claims, Owner;
    forall name ensures Resolves(scalar, canonical, alias, name, Find(m, name)) {
      assert Settled(scalar, canonical, all, name, Find(tokens, name));
    }
  }

  // What the table is.

  /** The catalog's OGC tokens stay distinct in lower case. */
  ghost predicate NoClash(scalar: Types) {
    forall g, h :: Carried(scalar, g) && Carried(scalar, h) && Lower(g) == Lower(h) ==> g == h
  }

  /** Two tokens that are the same in lower case stand for different types, and no
      alias settles what the name means. */
  ghost predicate Ambiguous(scalar: Types, canonical: map<string, string>, alias: map<string, string>, name: string) {
    !(name in alias && alias[name] in scalar)
    && exists g, h :: Claims(scalar, canonical, g, name) && Claims(scalar, canonical, h, name)
                   && scalar[Owner(scalar, canonical, g)] != scalar[Owner(scalar, canonical, h)]
  }

  /** There is one table, whatever order the maps are visited in, exactly when no
      name is ambiguous. */
  lemma OneTable(scalar: Types, canonical: map<string, string>, alias: map<string, string>, m: Types)
    requires Built(scalar, canonical, alias, m)
    ensures (forall other :: Built(scalar, canonical, alias, other) ==> other == m)
       <==> (forall name :: !Ambiguous(scalar, canonical, alias, name))
  {
    if name :| Ambiguous(scalar, canonical, alias, name) {
      OtherTable(scalar, canonical, alias, m, name);
    } else {
      forall other | Built(scalar, canonical, alias, other) ensures other == m {
        SameTable(scalar, canonical, alias, m, other);
      }
    }
  }

  lemma SameTable(scalar: Types, canonical: map<string, string>, alias: map<string, string>, m: Types, other: Types)
    requires Built(scalar, canonical, alias, m) && Built(scalar, canonical, alias, other)
    requires forall name :: !Ambiguous(scalar, canonical, alias, name)
    ensures other == m
  {
    forall name ensures Find(m, name) == Find(other, name) {
      hide Claims, Owner;
      assert Resolves(scalar, canonical, alias, name, Find(m, name));
      assert Resolves(scalar, canonical, alias, name, Find(other, name));
      assert !Ambiguous(scalar, canonical, alias, name);
    }
    forall name ensures name in m <==> name in other {
      assert Find(m, name) == Find(other, name);
    }
    forall name | name in m ensures m[name] == other[name] {
      assert Find(m, name) == Find(other, name);
    }
  }

  lemma OtherTable(scalar: Types, canonical: map<string, string>, alias: map<string, string>, m: Types, name: string)
    requires Built(scalar, canonical, alias, m) && Ambiguous(scalar, canonical, alias, name)
    ensures exists other :: Built(scalar, canonical, alias, other) && other != m
  {
    var g, h :| Claims(scalar, canonical, g, name) && Claims(scalar, canonical, h, name)
                && scalar[Owner(scalar, canonical, g)] != scalar[Owner(scalar, canonical, h)];
    assert Resolves(scalar, canonical, alias, name, Find(m, name));
    var x := if m[name] == scalar[Owner(scalar, canonical, g)] then h else g;
    var other := m[name := scalar[Owner(scalar, canonical, x)]];
    assert Claims(scalar, canonical, x, name);
    hide Claims, Owner;
    forall n ensures Resolves(scalar, canonical, alias, n, Find(other, n)) {
      assert Resolves(scalar, canonical, alias, n, Find(m, n));
    }
    assert Built(scalar, canonical, alias, other) && other[name] != m[name];
  }

  lemma DistinctTokensDecide(scalar: Types, canonical: map<string, string>, alias: map<string, string>)
    requires NoClash(scalar)
    ensures forall name :: !Ambiguous(scalar, canonical, alias, name)
  {}

  /** A token that several types carry means the type named for it, or nothing,
      unless an alias or a type's own name claims it. */
  lemma SharedToken(scalar: Types, canonical: map<string, string>, alias: map<string, string>, m: Types, token: string)
    requires Built(scalar, canonical, alias, m) && NoClash(scalar)
    requires |Carriers(scalar, scalar.Keys, token)| > 1
    requires Lower(token) !in alias && Lower(token) !in scalar
    ensures Find(m, Lower(token)) ==
            if token in canonical then Find(scalar, canonical[token]) else Find(scalar, "")
  {
    var name := Lower(token);
    assert Resolves(scalar, canonical, alias, name, Find(m, name));
    var all := Carriers(scalar, scalar.Keys, token);
    var n :| n in all;
    assert n in scalar && scalar[n].ogc == token;
    assert Owner(scalar, canonical, token) == if token in canonical then canonical[token] else "";
    if Stands(scalar, canonical, token) {
      assert Claims(scalar, canonical, token, name);
    }
  }

  // The tier's own tokens.

  lemma OwnTokens(catalog: seq<CatalogType>, scalar: Types, n: string)
    requires CarriesLast(catalog, scalar) && n in scalar
    ensures scalar[n].ogc in {"TBoolean", "TInteger", "TReal", "TText"}
  {}

  /** Over the tier's own tokens every catalog gives one table. */
  lemma CatalogDecides(catalog: seq<CatalogType>, scalar: Types, canonical: map<string, string>,
                       alias: map<string, string>, m: Types, other: Types)
    requires CarriesLast(catalog, scalar)
    requires Built(scalar, canonical, alias, m) && Built(scalar, canonical, alias, other)
    ensures m == other
  {
    forall g, h | Carried(scalar, g) && Carried(scalar, h) && Lower(g) == Lower(h) ensures g == h {
      OwnTokensApart(catalog, scalar, g, h);
    }
    DistinctTokensDecide(scalar, canonical, alias);
    SameTable(scalar, canonical, alias, m, other);
  }

  lemma OwnTokensApart(catalog: seq<CatalogType>, scalar: Types, g: string, h: string)
    requires CarriesLast(catalog, scalar)
    requires Carried(scalar, g) && Carried(scalar, h) && Lower(g) == Lower(h)
    ensures g == h
  {
    hide CarriesLast, Lower;
    var n :| n in scalar && scalar[n].ogc == g;
    var o :| o in scalar && scalar[o].ogc == h;
    OwnTokens(catalog, scalar, n);
    OwnTokens(catalog, scalar, o);
    LowerApart(g, h);
  }

  lemma LowerApart(g: string, h: string)
    requires g in {"TBoolean", "TInteger", "TReal", "TText"} && h in {"TBoolean", "TInteger", "TReal", "TText"}
    requires Lower(g) == Lower(h)
    ensures g == h
  {
    if |g| == |h| == 5 {
      assert Lower(g)[1] == LowerChar(g[1]) && Lower(h)[1] == LowerChar(h[1]);
    } else if |g| == |h| == 8 {
      assert Lower(g)[1] == LowerChar(g[1]) && Lower(h)[1] == LowerChar(h[1]);
    } else {
      assert |Lower(g)| == |g| && |Lower(h)| == |h|;
    }
  }

  /** Every name means a type of the catalog that can be carried: no spatial type,
      and none without a form to write. */
  lemma OnlyCarriable(catalog: seq<CatalogType>, scalar: Types, canonical: map<string, string>,
                      alias: map<string, string>, m: Types, name: string)
    requires CarriesLast(catalog, scalar) && Built(scalar, canonical, alias, m) && name in m
    ensures exists k :: 0 <= k < |catalog| && Carriable(catalog[k]) && m[name] == TypeOf(catalog[k])
  {
    assert Resolves(scalar, canonical, alias, name, Find(m, name));
    var n :| n in scalar && m[name] == scalar[n];
    var k :| IsLast(catalog, n, k) && scalar[n] == TypeOf(catalog[k]);
  }

  const OGC_CANONICAL: map<string, string> := map["TInteger" := "tint"]

  const TPROP_ALIAS: map<string, string> := map[
    "" := "tfloat", "measure" := "tfloat", "real" := "tfloat", "float" := "tfloat", "double" := "tfloat",
    "number" := "tfloat", "integer" := "tint", "int" := "tint", "bigint" := "tbigint", "long" := "tbigint",
    "tstring" := "ttext", "text" := "ttext", "string" := "ttext", "boolean" := "tbool", "bool" := "tbool"
  ]

  /** TInteger means tint however many integer types the catalog has, so long as
      tint is one of them, in the catalog's every order. */
  lemma TIntegerIsTint(catalog: seq<CatalogType>, scalar: Types, m: Types)
    requires CarriesLast(catalog, scalar) && Built(scalar, OGC_CANONICAL, TPROP_ALIAS, m)
    requires "tint" in scalar && scalar["tint"].ogc == "TInteger" && "tinteger" !in scalar
    ensures Find(m, "tinteger") == Some(scalar["tint"])
  {
    hide CarriesLast;
    var g := "TInteger";
    TintOwnsTInteger(scalar);
    hide Lower, Owner, Carriers;
    assert Claims(scalar, OGC_CANONICAL, g, "tinteger");
    assert Resolves(scalar, OGC_CANONICAL, TPROP_ALIAS, "tinteger", Find(m, "tinteger"));
    var h :| Claims(scalar, OGC_CANONICAL, h, "tinteger")
             && Find(m, "tinteger") == Some(scalar[Owner(scalar, OGC_CANONICAL, h)]);
    OwnTokensApart(catalog, scalar, h, g);
  }

  lemma TintOwnsTInteger(scalar: Types)
    requires "tint" in scalar && scalar["tint"].ogc == "TInteger"
    ensures Lower("TInteger") == "tinteger"
    ensures Carried(scalar, "TInteger") && Owner(scalar, OGC_CANONICAL, "TInteger") == "tint"
  {
    var all := Carriers(scalar, scalar.Keys, "TInteger");
    assert "tint" in all;
    if |all| == 1 {
      assert |all - {"tint"}| == 0 && all == {"tint"};
    }
  }

  /** The tier's further spellings, and the body that names no type. */
  lemma OwnAliases(scalar: Types, m: Types)
    requires Built(scalar, OGC_CANONICAL, TPROP_ALIAS, m)
    ensures "tfloat" in scalar ==>
              forall a :: a in {"", "measure", "real", "float", "double", "number"} ==>
                Find(m, a) == Some(scalar["tfloat"])
    ensures "tint" in scalar ==> forall a :: a in {"integer", "int"} ==> Find(m, a) == Some(scalar["tint"])
    ensures "tbigint" in scalar ==> forall a :: a in {"bigint", "long"} ==> Find(m, a) == Some(scalar["tbigint"])
    ensures "ttext" in scalar ==> forall a :: a in {"tstring", "text", "string"} ==> Find(m, a) == Some(scalar["ttext"])
    ensures "tbool" in scalar ==> forall a :: a in {"boolean", "bool"} ==> Find(m, a) == Some(scalar["tbool"])
    ensures TPROP_ALIAS.Keys == {"", "measure", "real", "float", "double", "number", "integer", "int", "bigint", "long",
                                 "tstring", "text", "string", "boolean", "bool"}
  {
    hide Built, Find;
    forall a | a in TPROP_ALIAS && TPROP_ALIAS[a] in scalar ensures Find(m, a) == Some(scalar[TPROP_ALIAS[a]]) {
      AliasFinds(scalar, OGC_CANONICAL, TPROP_ALIAS, m, a);
    }
  }

  lemma AliasFinds(scalar: Types, canonical: map<string, string>, alias: map<string, string>, m: Types, a: string)
    requires Built(scalar, canonical, alias, m) && a in alias && alias[a] in scalar
    ensures Find(m, a) == Some(scalar[alias[a]])
  {
    assert Resolves(scalar, canonical, alias, a, Find(m, a));
  }

  /** The same letter, or the two cases of one. */
  predicate SameLetter(c: char, d: char) {
    c == d || ('A' <= c <= 'Z' && d as int == c as int + 32) || ('A' <= d <= 'Z' && c as int == d as int + 32)
  }

  /** Names are told apart by their letters, not by the case of them. */
  lemma LowerIffSameLetters(s: string, t: string)
    ensures Lower(s) == Lower(t) <==> |s| == |t| && forall i :: 0 <= i < |s| ==> SameLetter(s[i], t[i])
    ensures forall i :: 0 <= i < |s| ==> SameLetter(Lower(s)[i], s[i]) && !('A' <= Lower(s)[i] <= 'Z')
  {
    if Lower(s) == Lower(t) {
      assert |Lower(s)| == |s| && |Lower(t)| == |t|;
      forall i | 0 <= i < |s| ensures SameLetter(s[i], t[i]) {
        assert Lower(s)[i] == LowerChar(s[i]) && Lower(t)[i] == LowerChar(t[i]);
      }
    }
  }
}
