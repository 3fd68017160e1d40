/** Listing decodes the stored fingerprints: the values of a key are joined with
    colons when it is archived, and split and filled into the predicates of a rule
    when it is listed (`Key::Key(fingerprint, rule)`, `Rule::fill`, `Rule::ruleFor`). */
module Listing {
  import opened Wrappers
  import opened Keys
  import opened Rules
  import opened WriteExpansion
  import opened Stores
  import opened ExpansionKeys

  // ----- Joining and splitting -----

  function Join(vs: seq<string>): string
  {
    if vs == [] then "" else if |vs| == 1 then vs[0] else vs[0] + ":" + Join(vs[1..])
  }

  /** The tokenizer on ':' that keeps empty tokens. */
  function Split(s: string): (vs: seq<string>)
    ensures |vs| == Colons(s) + 1
  {
    if s == "" then [""]
    else
      var rest := Split(s[1..]);
      if s[0] == ':' then [""] + rest else [[s[0]] + rest[0]] + rest[1..]
  }

  function Colons(s: string): nat
  {
    if s == "" then 0 else (if s[0] == ':' then 1 else 0) + Colons(s[1..])
  }

  lemma {:induction false} SplitConcat(a: string, b: string)
    ensures Split(a + ":" + b) == Split(a) + Split(b)
  {
    hide Split;
    if a == "" {
      assert "" + ":" + b == [':'] + b;
      SplitStep(':', b);
      SplitNothing();
    } else {
      var c, rest := a[0], a[1..];
      SplitConcat(rest, b);
      assert a == [c] + rest && a + ":" + b == [c] + (rest + ":" + b);
      SplitStep(c, rest);
      SplitStep(c, rest + ":" + b);
      FirstToken(c, Split(rest), Split(b));
    }
  }

  lemma {:induction false} SplitNothing()
    ensures Split("") == [""]
  {
  }

  lemma {:induction false} SplitStep(c: char, rest: string)
    ensures Split([c] + rest) == if c == ':' then [""] + Split(rest) else [[c] + Split(rest)[0]] + Split(rest)[1..]
  {
    assert ([c] + rest)[1..] == rest;
  }

  lemma {:induction false} FirstToken(c: char, head: seq<string>, tail: seq<string>)
    requires head != []
    ensures [[c] + (head + tail)[0]] + (head + tail)[1..] == [[c] + head[0]] + head[1..] + tail
    ensures [""] + (head + tail) == [""] + head + tail
  {
  }

  lemma {:induction false} SplitPlain(s: string)
    requires Colons(s) == 0
    ensures Split(s) == [s]
  {
    if s != "" {
      SplitPlain(s[1..]);
      assert [s[0]] + s[1..] == s;
    }
  }

  /** The tokens of the parts, one part after the other. */
  function Tokens(vs: seq<string>): (r: seq<string>)
    ensures |r| == AllColons(vs) + |vs|
  {
    if vs == [] then [] else Split(vs[0]) + Tokens(vs[1..])
  }

  function AllColons(vs: seq<string>): nat
  {
    if vs == [] then 0 else Colons(vs[0]) + AllColons(vs[1..])
  }

  lemma {:induction false} SplitJoin(vs: seq<string>)
    requires vs != []
    ensures Split(Join(vs)) == Tokens(vs)
  {
    if |vs| == 1 {
      assert vs[1..] == [] && Split(vs[0]) + [] == Split(vs[0]);
    } else {
      SplitJoin(vs[1..]);
      SplitConcat(vs[0], Join(vs[1..]));
    }
  }

  function CanonicalValues(toKey: ToKey, registry: Registry, ps: seq<Pair>): (vs: seq<string>)
    ensures |vs| == |ps|
  {
    seq(|ps|, i requires 0 <= i < |ps| => Canonical(toKey, registry, ps[i]))
  }

  lemma {:induction false} FingerprintIsJoin(toKey: ToKey, registry: Registry, ps: seq<Pair>)
    ensures Fingerprint(toKey, registry, ps) == Join(CanonicalValues(toKey, registry, ps))
  {
    hide Canonical;
    if |ps| > 1 {
      FingerprintIsJoin(toKey, registry, ps[1..]);
      assert CanonicalValues(toKey, registry, ps)[1..] == CanonicalValues(toKey, registry, ps[1..]);
    }
  }

  // ----- Filling the predicates of a rule -----

  const QUANTILE := "quantile"

  /** `Matcher::fill`: only the optional matcher drops the empty value. */
  function Kept(p: Predicate, v: string): seq<Pair>
  {
    if p.matcher.MatchOptional? && v == "" then [] else [(p.keyword, v)]
  }

  /** The loop of `Rule::fill`; `extra` says that there is one value too many. `None`
      stands for a failed assertion. */
  function FillFrom(ps: seq<Predicate>, values: seq<string>, extra: bool): Option<seq<Pair>>
  {
    if ps == [] then if values == [] then Some([]) else None
    else if values == [] then None
    else if extra && ps[0].keyword == QUANTILE then
      if |values| == 1 then None
      else match FillFrom(ps[1..], values[2..], extra)
        case None => None
        case Some(rest) => Some(Kept(ps[0], values[0] + ":" + values[1]) + rest)
    else match FillFrom(ps[1..], values[1..], extra)
      case None => None
      case Some(rest) => Some(Kept(ps[0], values[0]) + rest)
  }

  function Fill(ps: seq<Predicate>, values: seq<string>): Option<seq<Pair>>
  {
    if |ps| <= |values| <= |ps| + 1 then FillFrom(ps, values, |values| == |ps| + 1) else None
  }

  function Behind(done: seq<Pair>, rest: Option<seq<Pair>>): Option<seq<Pair>>
  {
    match rest
    case None => None
    case Some(ps) => Some(done + ps)
  }

  lemma {:induction false} BehindBehind(a: seq<Pair>, b: seq<Pair>, rest: Option<seq<Pair>>)
    ensures Behind(a, Behind(b, rest)) == Behind(a + b, rest)
  {
    if rest.Some? {
      assert a + (b + rest.value) == (a + b) + rest.value;
    }
  }

  /** `Rule::fill` in place: the loop over predicates and values pushes to the key. */
  method FillKey(ps: seq<Predicate>, values: seq<string>) returns (ok: bool, key: Key)
    ensures ok <==> Fill(ps, values).Some?
    ensures ok ==> key == KeyOf(Fill(ps, values).value)
  {
    hide KeyOf;
    key := Key(map[], []);
    if |values| < |ps| || |values| > |ps| + 1 {
      return false, key;
    }
    var extra := |values| == |ps| + 1;
    ghost var done: seq<Pair> := [];
    var p, v := 0, 0;
    assert ps[0..] == ps && values[0..] == values;
    NothingFilled(FillFrom(ps, values, extra));
    while p < |ps| && v < |values|
      invariant 0 <= p <= |ps| && 0 <= v <= |values| && key == KeyOf(done)
      invariant FillFrom(ps, values, extra) == Behind(done, FillFrom(ps[p..], values[v..], extra))
      decreases |ps| - p
    {
      FillStep(ps, values, p, v, extra);
      hide FillFrom, Behind, Kept;
      var value := values[v];
      if extra && ps[p].keyword == QUANTILE {
        v := v + 1;
        if v == |values| {
          BehindNone(done);
          return false, key;
        }
        value := value + ":" + values[v];
      }
      BehindBehind(done, Kept(ps[p], value), FillFrom(ps[p + 1..], values[v + 1..], extra));
      KeptIsPushed(done, ps[p], value);
      if !ps[p].matcher.MatchOptional? || value != "" {
        key := key.Push(ps[p].keyword, value);
      }
      done := done + Kept(ps[p], value);
      p, v := p + 1, v + 1;
    }
    ok := v == |values| && p == |ps|;
    assert done + [] == done;
  }

  /** One turn of the loop of `Rule::fill`. */
  lemma {:induction false} FillStep(ps: seq<Predicate>, values: seq<string>, p: nat, v: nat, extra: bool)
    requires p < |ps| && v < |values|
    ensures FillFrom(ps[p..], values[v..], extra) ==
            if extra && ps[p].keyword == QUANTILE then
              if v + 1 == |values| then None
              else Behind(Kept(ps[p], values[v] + ":" + values[v + 1]), FillFrom(ps[p + 1..], values[v + 2..], extra))
            else Behind(Kept(ps[p], values[v]), FillFrom(ps[p + 1..], values[v + 1..], extra))
  {
    hide Kept;
    var ps', vs := ps[p..], values[v..];
    assert ps'[0] == ps[p] && ps'[1..] == ps[p + 1..] && vs[0] == values[v] && vs[1..] == values[v + 1..];
    if v + 1 < |values| {
      assert vs[1] == values[v + 1] && vs[2..] == values[v + 2..];
    }
  }

  lemma {:induction false} BehindNone(done: seq<Pair>)
    ensures Behind(done, None) == None
  {
  }

  lemma {:induction false} KeptIsPushed(done: seq<Pair>, p: Predicate, value: string)
    ensures KeyOf(done + Kept(p, value)) ==
            if !p.matcher.MatchOptional? || value != "" then KeyOf(done).Push(p.keyword, value) else KeyOf(done)
  {
    hide KeyOf;
    if p.matcher.MatchOptional? && value == "" {
      assert done + [] == done;
    } else {
      KeyOfPush(done, (p.keyword, value));
    }
  }

  lemma {:induction false} NothingFilled(rest: Option<seq<Pair>>)
    ensures Behind([], rest) == rest && KeyOf([]) == Key(map[], [])
  {
    if rest.Some? {
      assert [] + rest.value == rest.value;
    }
  }

  /** `Key::Key(fingerprint, rule)`. */
  function Decode(ps: seq<Predicate>, fingerprint: string): Option<seq<Pair>>
  {
    Fill(ps, Split(fingerprint))
  }

  /** The canonical key of a rule without its empty optional values. */
  function Listed(ps: seq<Predicate>, values: seq<string>): seq<Pair>
    requires |ps| == |values|
  {
    if ps == [] then [] else Kept(ps[0], values[0]) + Listed(ps[1..], values[1..])
  }

  /** Only the value of the quantile keyword may hold a colon, and only one. */
  predicate Decodable(ps: seq<Predicate>, values: seq<string>)
    requires |ps| == |values|
  {
    || AllColons(values) == 0
    || (AllColons(values) == 1 && exists q :: 0 <= q < |ps| && ps[q].keyword == QUANTILE && Colons(values[q]) == 1)
  }

  // ----- The round trip, in both directions -----

  lemma {:induction false} PlainTokens(vs: seq<string>)
    requires AllColons(vs) == 0
    ensures Tokens(vs) == vs
  {
    if vs != [] {
      PlainTokens(vs[1..]);
      SplitPlain(vs[0]);
      assert [vs[0]] + vs[1..] == vs;
    }
  }

  lemma {:induction false} PlainFill(ps: seq<Predicate>, vs: seq<string>)
    requires |ps| == |vs|
    ensures FillFrom(ps, vs, false) == Some(Listed(ps, vs))
  {
    if ps != [] {
      PlainFill(ps[1..], vs[1..]);
    }
  }

  /** After the quantile, or where there is none, the extra flag changes nothing. */
  lemma {:induction false} NoQuantileFill(ps: seq<Predicate>, vs: seq<string>)
    requires |ps| == |vs| && QUANTILE !in Keywords(ps)
    ensures FillFrom(ps, vs, true) == Some(Listed(ps, vs))
  {
    if ps != [] {
      assert Keywords(ps) == [ps[0].keyword] + Keywords(ps[1..]);
      NoQuantileFill(ps[1..], vs[1..]);
    }
  }

  lemma {:induction false} RestDistinct(ps: seq<Predicate>)
    requires ps != [] && Distinct(Keywords(ps))
    ensures Distinct(Keywords(ps[1..])) && ps[0].keyword !in Keywords(ps[1..])
  {
    assert Keywords(ps) == [ps[0].keyword] + Keywords(ps[1..]);
    forall i, j | 0 <= i < j < |ps| - 1
      ensures Keywords(ps[1..])[i] != Keywords(ps[1..])[j]
    {
      assert Keywords(ps)[i + 1] != Keywords(ps)[j + 1];
    }
    forall i | 0 <= i < |ps| - 1
      ensures Keywords(ps[1..])[i] != ps[0].keyword
    {
      assert Keywords(ps)[0] != Keywords(ps)[i + 1];
    }
  }

  lemma {:induction false} OneColon(s: string)
    requires Colons(s) == 1
    ensures |Split(s)| == 2 && Split(s)[0] + ":" + Split(s)[1] == s
  {
    if s[0] == ':' {
      SplitPlain(s[1..]);
      assert "" + ":" + s[1..] == s;
    } else {
      OneColon(s[1..]);
      assert s == [s[0]] + s[1..];
    }
  }

  lemma {:induction false} NoColonAt(vs: seq<string>, i: nat)
    requires i < |vs|
    ensures Colons(vs[i]) <= AllColons(vs)
  {
    if i > 0 {
      NoColonAt(vs[1..], i - 1);
    }
  }

  /** One colon, in the quantile: the filled key is the written one. */
  lemma {:induction false} QuantileFill(ps: seq<Predicate>, vs: seq<string>, q: nat)
    requires |ps| == |vs| && Distinct(Keywords(ps)) && AllColons(vs) == 1
    requires q < |ps| && ps[q].keyword == QUANTILE && Colons(vs[q]) == 1
    ensures FillFrom(ps, Tokens(vs), true) == Some(Listed(ps, vs))
  {
    RestDistinct(ps);
    if q == 0 {
      OneColon(vs[0]);
      PlainTokens(vs[1..]);
      NoQuantileFill(ps[1..], vs[1..]);
      assert Tokens(vs)[2..] == vs[1..];
    } else {
      NoColonAt(vs[1..], q - 1);
      SplitPlain(vs[0]);
      assert ps[1..][q - 1] == ps[q] && vs[1..][q - 1] == vs[q];
      assert Keywords(ps[1..])[q - 1] == QUANTILE;
      QuantileFill(ps[1..], vs[1..], q - 1);
      assert Tokens(vs)[1..] == Tokens(vs[1..]);
    }
  }

  lemma {:induction false} FilledKeywords(ps: seq<Predicate>, values: seq<string>, extra: bool)
    ensures FillFrom(ps, values, extra).Some? ==> forall p :: p in FillFrom(ps, values, extra).value ==> p.0 in Keywords(ps)
  {
    if ps != [] && values != [] {
      assert Keywords(ps) == [ps[0].keyword] + Keywords(ps[1..]);
      FilledKeywords(ps[1..], values[1..], extra);
      if |values| > 1 {
        FilledKeywords(ps[1..], values[2..], extra);
      }
    }
  }

  lemma {:induction false} ListedKeywords(ps: seq<Predicate>, values: seq<string>)
    requires |ps| == |values|
    ensures forall p :: p in Listed(ps, values) ==> p.0 in Keywords(ps)
  {
    if ps != [] {
      assert Keywords(ps) == [ps[0].keyword] + Keywords(ps[1..]);
      ListedKeywords(ps[1..], values[1..]);
    }
  }

  lemma {:induction false} TailDiffers(head: seq<Pair>, a: seq<Pair>, b: seq<Pair>)
    requires a != b
    ensures head + a != head + b
  {
    assert (head + a)[|head|..] == a && (head + b)[|head|..] == b;
  }

  /** One colon elsewhere: whatever is filled is not the written key. */
  lemma {:induction false} MisplacedFill(ps: seq<Predicate>, vs: seq<string>)
    requires |ps| == |vs| && Distinct(Keywords(ps)) && AllColons(vs) == 1
    requires forall q :: 0 <= q < |ps| && ps[q].keyword == QUANTILE ==> Colons(vs[q]) != 1
    ensures FillFrom(ps, Tokens(vs), true) != Some(Listed(ps, vs))
  {
    RestDistinct(ps);
    ListedKeywords(ps[1..], vs[1..]);
    if Colons(vs[0]) == 1 {
      OneColon(vs[0]);
      assert ps[0].keyword != QUANTILE;
      var first := Split(vs[0])[0];
      assert |first| < |vs[0]|;
      var rest := FillFrom(ps[1..], Tokens(vs)[1..], true);
      FilledKeywords(ps[1..], Tokens(vs)[1..], true);
      if rest.Some? {
        HeadDiffers(ps, first, vs[0], rest.value, Listed(ps[1..], vs[1..]));
      }
    } else {
      SplitPlain(vs[0]);
      assert Tokens(vs)[1..] == Tokens(vs[1..]);
      if ps[0].keyword == QUANTILE {
        var rest := FillFrom(ps[1..], Tokens(vs)[2..], true);
        FilledKeywords(ps[1..], Tokens(vs)[2..], true);
        if rest.Some? {
          assert |vs[0] + ":" + Tokens(vs)[1]| > |vs[0]|;
          HeadDiffers(ps, vs[0] + ":" + Tokens(vs)[1], vs[0], rest.value, Listed(ps[1..], vs[1..]));
        }
      } else {
        forall q | 0 <= q < |ps[1..]| && ps[1..][q].keyword == QUANTILE
          ensures Colons(vs[1..][q]) != 1
        {
          assert ps[q + 1].keyword == QUANTILE;
        }
        MisplacedFill(ps[1..], vs[1..]);
        var rest := FillFrom(ps[1..], Tokens(vs[1..]), true);
        if rest.Some? {
          TailDiffers(Kept(ps[0], vs[0]), rest.value, Listed(ps[1..], vs[1..]));
        }
      }
    }
  }

  /** Two lists that start with different values of one keyword, which neither has
      further on, differ. */
  lemma {:induction false} HeadDiffers(ps: seq<Predicate>, a: string, b: string, rest: seq<Pair>, rest': seq<Pair>)
    requires ps != [] && a != b
    requires forall p :: p in rest || p in rest' ==> p.0 != ps[0].keyword
    ensures Kept(ps[0], a) + rest != Kept(ps[0], b) + rest'
  {
    var left, right := Kept(ps[0], a) + rest, Kept(ps[0], b) + rest';
    assert Kept(ps[0], a) == [] && left != [] ==> left[0] in rest;
    assert Kept(ps[0], b) == [] && right != [] ==> right[0] in rest';
    assert Kept(ps[0], a) != [] ==> left[0] == (ps[0].keyword, a);
    assert Kept(ps[0], b) != [] ==> right[0] == (ps[0].keyword, b);
  }

  /** Decoding the fingerprint of a key with the predicates it was built from gives
      back its canonical pairs, without empty optional values, exactly when no value
      but the quantile's holds a colon, and that one at most one. */
  lemma {:induction false} DecodeIffDecodable(ps: seq<Predicate>, toKey: ToKey, registry: Registry, key: seq<Pair>)
    requires ps != [] && Names(key) == Keywords(ps) && Distinct(Keywords(ps))
    ensures var values := CanonicalValues(toKey, registry, key);
            |ps| == |values| &&
            (Decode(ps, Fingerprint(toKey, registry, key)) == Some(Listed(ps, values)) <==> Decodable(ps, values))
  {
    hide Fingerprint, CanonicalValues, FillFrom, Listed;
    assert |Names(key)| == |Keywords(ps)|;
    var values := CanonicalValues(toKey, registry, key);
    FingerprintIsJoin(toKey, registry, key);
    SplitJoin(values);
    if AllColons(values) == 0 {
      PlainTokens(values);
      PlainFill(ps, values);
    } else if AllColons(values) == 1 {
      if Decodable(ps, values) {
        var q :| 0 <= q < |ps| && ps[q].keyword == QUANTILE && Colons(values[q]) == 1;
        QuantileFill(ps, values, q);
      } else {
        MisplacedFill(ps, values);
      }
    }
  }

  // ----- Finding the rule of a stored datum -----

  /** `Rule::ruleFor`: the first rule below whose ancestors match the keys. */
  function RuleFor(rule: Rule, keys: seq<Dict>, depth: nat): Option<Rule>
    requires depth <= |keys|
    decreases |keys| - depth, 0
  {
    if depth == |keys| then Some(rule)
    else if rule.Match(keys[depth]) then FirstRuleFor(rule.rules, keys, depth + 1)
    else None
  }

  /** The loop over sibling rules, also that of `Schema::ruleFor`. */
  function FirstRuleFor(rules: seq<Rule>, keys: seq<Dict>, depth: nat): Option<Rule>
    requires depth <= |keys|
    decreases |keys| - depth, |rules| + 1
  {
    if rules == [] then None
    else
      var r := RuleFor(rules[0], keys, depth);
      if r.Some? then r else FirstRuleFor(rules[1..], keys, depth)
  }

  /** The three rules that a hit went through. */
  datatype Lineage = Lineage(database: Rule, index: Rule, datum: Rule)

  ghost predicate LeafOf(site: Site, field: Dict, keys: seq<seq<Pair>>, leaf: Lineage)
  {
    && |keys| == 3
    && FirstMatch(site.schemaOf(DictOf(keys[0])).rules, DictOf(keys[0])) == Some(leaf.database)
    && leaf.index in leaf.database.rules && WalkField(leaf.index.predicates, field) == Matched(keys[1])
    && leaf.datum in leaf.index.rules && WalkField(leaf.datum.predicates, field) == Matched(keys[2])
  }

  lemma {:induction false} DatumRuleOf(site: Site, above: Registry, rules: seq<Rule>, field: Dict) returns (r: Rule)
    requires DecideRules(site, above, rules, 2, field).Hit?
    ensures var keys := DecideRules(site, above, rules, 2, field).keys;
            |keys| == 1 && r in rules && WalkField(r.predicates, field) == Matched(keys[0])
  {
    if DecideRule(site, above, rules[0], 2, field).Hit? {
      r := rules[0];
    } else {
      r := DatumRuleOf(site, above, rules[1..], field);
    }
  }

  lemma {:induction false} IndexRuleOf(site: Site, above: Registry, rules: seq<Rule>, field: Dict) returns (r: Rule, d: Rule)
    requires DecideRules(site, above, rules, 1, field).Hit?
    ensures var keys := DecideRules(site, above, rules, 1, field).keys;
            |keys| == 2 && r in rules && WalkField(r.predicates, field) == Matched(keys[0])
            && d in r.rules && WalkField(d.predicates, field) == Matched(keys[1])
  {
    if DecideRule(site, above, rules[0], 1, field).Hit? {
      r := rules[0];
      hide DecideRules;
      d := DatumRuleOf(site, [r.types] + above, r.rules, field);
    } else {
      r, d := IndexRuleOf(site, above, rules[1..], field);
    }
  }

  lemma {:induction false} LeafOfRules(site: Site, above: Registry, rules: seq<Rule>, field: Dict) returns (leaf: Lineage)
    requires DecideRules(site, above, rules, 0, field).Hit?
    ensures LeafOf(site, field, DecideRules(site, above, rules, 0, field).keys, leaf)
  {
    if DecideRule(site, above, rules[0], 0, field).Hit? {
      hide DecideRules;
      var ps := WalkField(rules[0].predicates, field).pairs;
      var schema := site.schemaOf(DictOf(ps));
      var dbRule := FirstMatch(schema.rules, DictOf(ps)).value;
      var idx, datum := IndexRuleOf(site, [dbRule.types, schema.types], dbRule.rules, field);
      leaf := Lineage(dbRule, idx, datum);
      assert DecideRule(site, above, rules[0], 0, field) == Below(ps, DecideSecond(site, DictOf(ps), field));
      AsFirst(site, above, rules, 0, field);
    } else {
      leaf := LeafOfRules(site, above, rules[1..], field);
    }
  }

  lemma {:induction false} AsFirst(site: Site, above: Registry, rules: seq<Rule>, depth: nat, field: Dict)
    requires depth <= 2 && rules != [] && DecideRule(site, above, rules[0], depth, field).Hit?
    ensures DecideRules(site, above, rules, depth, field) == DecideRule(site, above, rules[0], depth, field)
  {
    hide DecideRule;
  }

  /** The index rules that a lookup can end in: they match the key and have children. */
  predicate Answers(rule: Rule, idx: Dict)
  {
    rule.Match(idx) && rule.rules != []
  }

  /** The first child of the first of some index rules that answers. */
  ghost predicate FirstChild(rules: seq<Rule>, idx: Dict, found: Rule)
  {
    exists n :: 0 <= n < |rules| && Answers(rules[n], idx) && rules[n].rules[0] == found && forall m :: 0 <= m < n ==> !Answers(rules[m], idx)
  }

  /** The lookup below a database rule, exactly. */
  lemma {:induction false} LookupIsFirstChild(rules: seq<Rule>, db: Dict, idx: Dict, found: Rule)
    ensures FirstRuleFor(rules, [db, idx], 1) == Some(found) <==> FirstChild(rules, idx, found)
  {
    if rules != [] {
      LookupInOne(rules[0], db, idx);
      LookupIsFirstChild(rules[1..], db, idx, found);
      if FirstChild(rules[1..], idx, found) && !Answers(rules[0], idx) {
        var n :| 0 <= n < |rules[1..]| && Answers(rules[1..][n], idx) && rules[1..][n].rules[0] == found && forall m :: 0 <= m < n ==> !Answers(rules[1..][m], idx);
        forall m | 0 <= m < n + 1
          ensures !Answers(rules[m], idx)
        {
          assert m > 0 ==> rules[m] == rules[1..][m - 1];
        }
        assert Answers(rules[n + 1], idx) && rules[n + 1].rules[0] == found;
      }
      if FirstChild(rules, idx, found) && !Answers(rules[0], idx) {
        var n :| 0 <= n < |rules| && Answers(rules[n], idx) && rules[n].rules[0] == found && forall m :: 0 <= m < n ==> !Answers(rules[m], idx);
        forall m | 0 <= m < n - 1
          ensures !Answers(rules[1..][m], idx)
        {
          assert rules[1..][m] == rules[m + 1];
        }
        assert Answers(rules[1..][n - 1], idx);
      }
    }
  }

  lemma {:induction false} LookupInOne(rule: Rule, db: Dict, idx: Dict)
    ensures RuleFor(rule, [db, idx], 1) == if Answers(rule, idx) then Some(rule.rules[0]) else None
  {
    if rule.rules != [] {
      assert RuleFor(rule.rules[0], [db, idx], 2) == Some(rule.rules[0]);
    }
  }

  lemma {:induction false} DatabaseRuleFound(rules: seq<Rule>, database: Rule, keys: seq<Dict>)
    requires |keys| == 2 && FirstMatch(rules, keys[0]) == Some(database) && FirstRuleFor(database.rules, keys, 1).Some?
    ensures FirstRuleFor(rules, keys, 0) == FirstRuleFor(database.rules, keys, 1)
  {
    if rules[0].Match(keys[0]) {
      assert rules[0] == database;
      assert RuleFor(rules[0], keys, 0) == FirstRuleFor(database.rules, keys, 1);
    } else {
      assert RuleFor(rules[0], keys, 0) == None;
      DatabaseRuleFound(rules[1..], database, keys);
    }
  }

  lemma {:induction false} SomeAnswers(rules: seq<Rule>, index: Rule, db: Dict, idx: Dict)
    requires index in rules && Answers(index, idx)
    ensures FirstRuleFor(rules, [db, idx], 1).Some?
  {
    LookupInOne(rules[0], db, idx);
    if !Answers(rules[0], idx) {
      assert index in rules[1..];
      SomeAnswers(rules[1..], index, db, idx);
    }
  }

  /** Predicates on the same keywords that drop empty values in the same places. */
  predicate FillAlike(ps: seq<Predicate>, qs: seq<Predicate>)
  {
    |ps| == |qs| && forall i :: 0 <= i < |ps| ==> ps[i].keyword == qs[i].keyword && ps[i].matcher.MatchOptional? == qs[i].matcher.MatchOptional?
  }

  lemma {:induction false} SameFill(ps: seq<Predicate>, qs: seq<Predicate>, values: seq<string>, extra: bool)
    requires FillAlike(ps, qs)
    ensures FillFrom(ps, values, extra) == FillFrom(qs, values, extra)
  {
    if ps != [] && values != [] {
      SameFill(ps[1..], qs[1..], values[1..], extra);
      if |values| > 1 {
        SameFill(ps[1..], qs[1..], values[2..], extra);
      }
    }
  }

  /** Whatever the lookup finds for the keys of an archived field: it is the field's own
      datum rule exactly when that is the first child of the first index rule below the
      database rule that matches and has children; and the fingerprint decodes to the key
      that was written exactly when the rule that is found reads it back.  That is, for a rule
      which fills like the field's own, when the values are decodable, and where they are
      plain, when it has the keywords of the field's own. */
  lemma {:induction false} ListingDecodes(site: Site, toKey: ToKey, field: Dict, leaf: Lineage)
    requires SiteWellFormed(site) && Decide(site, field).Hit?
    requires LeafOf(site, field, Decide(site, field).keys, leaf)
    requires leaf.datum.predicates != []
    ensures var d := Decide(site, field);
            var db, idx := DictOf(d.keys[0]), DictOf(d.keys[1]);
            var found := FirstRuleFor(site.schemaOf(db).rules, [db, idx], 0);
            var values := CanonicalValues(toKey, d.registry, d.keys[2]);
            && found.Some? && |leaf.datum.predicates| == |values|
            && (found.value == leaf.datum <==> FirstChild(leaf.database.rules, idx, leaf.datum))
            && (Decode(found.value.predicates, Fingerprint(toKey, d.registry, d.keys[2])) == Some(Listed(leaf.datum.predicates, values))
                <==> ReadsBack(leaf.datum.predicates, found.value.predicates, values))
            && (FillAlike(found.value.predicates, leaf.datum.predicates) ==>
                (ReadsBack(leaf.datum.predicates, found.value.predicates, values) <==> Decodable(leaf.datum.predicates, values)))
            && ((forall v :: v in values ==> v != "" && Colons(v) == 0) ==>
                (ReadsBack(leaf.datum.predicates, found.value.predicates, values)
                 <==> Keywords(found.value.predicates) == Keywords(leaf.datum.predicates)))
  {
    hide DecideRules, DictOf, Fingerprint, Listed, CanonicalValues, FillFrom, FirstChild, Colons, ReadsBack;
    var d := Decide(site, field);
    var db, idx := DictOf(d.keys[0]), DictOf(d.keys[1]);
    IndexAnswers(site, field, leaf);
    SomeAnswers(leaf.database.rules, leaf.index, db, idx);
    DatabaseRuleFound(site.schemaOf(db).rules, leaf.database, [db, idx]);
    var found := FirstRuleFor(leaf.database.rules, [db, idx], 1).value;
    LookupIsFirstChild(leaf.database.rules, db, idx, leaf.datum);
    FoundDistinct(leaf.database.rules, db, idx, found);
    WalkNames(leaf.datum.predicates, field);
    DecodeIffDecodable(leaf.datum.predicates, toKey, d.registry, d.keys[2]);
    DecodeIffReadsBack(leaf.datum.predicates, found.predicates, toKey, d.registry, d.keys[2]);
    if FillAlike(found.predicates, leaf.datum.predicates) {
      var tokens := Split(Fingerprint(toKey, d.registry, d.keys[2]));
      SameFill(found.predicates, leaf.datum.predicates, tokens, |tokens| == |found.predicates| + 1);
    }
    if forall v :: v in CanonicalValues(toKey, d.registry, d.keys[2]) ==> v != "" && Colons(v) == 0 {
      DecodeIffKeywords(leaf.datum.predicates, found.predicates, toKey, d.registry, d.keys[2]);
    }
  }

  lemma {:induction false} FoundDistinct(rules: seq<Rule>, db: Dict, idx: Dict, found: Rule)
    requires (forall r, c :: r in rules && c in r.rules ==> Distinct(Keywords(c.predicates)))
    requires FirstRuleFor(rules, [db, idx], 1) == Some(found)
    ensures Distinct(Keywords(found.predicates))
  {
    LookupIsFirstChild(rules, db, idx, found);
    var n :| 0 <= n < |rules| && Answers(rules[n], idx) && rules[n].rules[0] == found && forall m :: 0 <= m < n ==> !Answers(rules[m], idx);
    assert rules[n] in rules && found in rules[n].rules;
  }

  lemma {:induction false} IndexAnswers(site: Site, field: Dict, leaf: Lineage)
    requires SiteWellFormed(site) && Decide(site, field).Hit?
    requires LeafOf(site, field, Decide(site, field).keys, leaf)
    ensures Answers(leaf.index, DictOf(Decide(site, field).keys[1])) && leaf.index in leaf.database.rules
    ensures Distinct(Keywords(leaf.datum.predicates))
    ensures forall r, c :: r in leaf.database.rules && c in r.rules ==> Distinct(Keywords(c.predicates))
  {
    hide DecideRules, DictOf;
    var d := Decide(site, field);
    forall r, c | r in leaf.database.rules && c in r.rules
      ensures Distinct(Keywords(c.predicates))
    {
      assert WellFormed(r, DictOf(d.keys[0]).Keys);
    }
    assert WellFormed(leaf.index, DictOf(d.keys[0]).Keys);
    WalkNames(leaf.index.predicates, field);
    RuleMatchesItsKey(leaf.index, d.keys[1]);
  }

  lemma {:induction false} ListedPlain(ps: seq<Predicate>, values: seq<string>)
    requires |ps| == |values| && forall v :: v in values ==> v != ""
    ensures Listed(ps, values) == Zipped(ps, values)
  {
    if ps == [] {
      assert Zipped(ps, values) == [];
    } else {
      assert values[0] in values && forall v :: v in values[1..] ==> v in values;
      ListedPlain(ps[1..], values[1..]);
      hide Listed;
      assert Zipped(ps, values) == [(ps[0].keyword, values[0])] + Zipped(ps[1..], values[1..]);
    }
  }

  function Zipped(ps: seq<Predicate>, values: seq<string>): seq<Pair>
    requires |ps| == |values|
  {
    seq(|ps|, i requires 0 <= i < |ps| => (ps[i].keyword, values[i]))
  }

  /** Pairs of the same values are the same exactly where the keywords are. */
  lemma {:induction false} ZippedKeywords(ps: seq<Predicate>, qs: seq<Predicate>, values: seq<string>)
    requires |ps| == |qs| == |values|
    ensures Zipped(qs, values) == Zipped(ps, values) <==> Keywords(qs) == Keywords(ps)
  {
    if Zipped(qs, values) == Zipped(ps, values) {
      forall i | 0 <= i < |ps|
        ensures Keywords(qs)[i] == Keywords(ps)[i]
      {
        assert Zipped(qs, values)[i] == Zipped(ps, values)[i];
      }
    }
    if Keywords(qs) == Keywords(ps) {
      forall i | 0 <= i < |ps|
        ensures Zipped(qs, values)[i] == Zipped(ps, values)[i]
      {
        assert Keywords(qs)[i] == Keywords(ps)[i];
      }
    }
  }

  lemma {:induction false} FilledCount(ps: seq<Predicate>, values: seq<string>, extra: bool)
    requires FillFrom(ps, values, extra).Some?
    ensures |FillFrom(ps, values, extra).value| <= |ps|
  {
    if ps != [] {
      if extra && ps[0].keyword == QUANTILE {
        FilledCount(ps[1..], values[2..], extra);
      } else {
        FilledCount(ps[1..], values[1..], extra);
      }
    }
  }

  /** Where all values are plain, any rule decodes a fingerprint to the key that was written
      exactly when it has the keywords under which it was written. */
  lemma {:induction false} DecodeIffKeywords(ps: seq<Predicate>, qs: seq<Predicate>, toKey: ToKey, registry: Registry, key: seq<Pair>)
    requires key != [] && Names(key) == Keywords(ps)
    requires forall v :: v in CanonicalValues(toKey, registry, key) ==> v != "" && Colons(v) == 0
    ensures |ps| == |key| &&
            (Decode(qs, Fingerprint(toKey, registry, key)) == Some(Listed(ps, CanonicalValues(toKey, registry, key))) <==> Keywords(qs) == Keywords(ps))
  {
    hide Fingerprint, CanonicalValues, FillFrom, Listed;
    var values := CanonicalValues(toKey, registry, key);
    assert |Names(key)| == |Keywords(ps)|;
    FingerprintIsJoin(toKey, registry, key);
    SplitJoin(values);
    AllPlain(values);
    PlainTokens(values);
    ListedPlain(ps, values);
    if |qs| == |values| {
      PlainFill(qs, values);
      ListedPlain(qs, values);
      ZippedKeywords(ps, qs, values);
    } else {
      assert Keywords(qs) != Keywords(ps) by { assert |Keywords(qs)| == |qs|; }
      if |values| == |qs| + 1 && FillFrom(qs, values, true).Some? {
        FilledCount(qs, values, true);
      }
    }
  }

  // ----- What any rule decodes, exactly -----

  lemma {:induction false} SplitHasNoColons(s: string)
    ensures forall t :: t in Split(s) ==> Colons(t) == 0
  {
    if s != "" {
      SplitHasNoColons(s[1..]);
      var rest := Split(s[1..]);
      assert rest[0] in rest && forall t :: t in rest[1..] ==> t in rest;
      assert ([s[0]] + rest[0])[1..] == rest[0];
    }
  }

  lemma {:induction false} TokensHaveNoColons(vs: seq<string>)
    ensures forall t :: t in Tokens(vs) ==> Colons(t) == 0
  {
    if vs != [] {
      SplitHasNoColons(vs[0]);
      TokensHaveNoColons(vs[1..]);
    }
  }

  lemma {:induction false} ColonsConcat(a: string, b: string)
    ensures Colons(a + b) == Colons(a) + Colons(b)
  {
    if a == "" {
      assert a + b == b;
    } else {
      assert (a + b)[1..] == a[1..] + b;
      ColonsConcat(a[1..], b);
    }
  }

  /** A pair whose value holds a colon. */
  predicate ColonPair(p: Pair)
  {
    Colons(p.1) > 0
  }

  /** What is filled from tokens holds a colon at the quantile only, and one; and it does where
      there is one token too many. */
  lemma {:induction false} FilledColons(qs: seq<Predicate>, tokens: seq<string>, extra: bool)
    requires (forall t :: t in tokens ==> Colons(t) == 0) && FillFrom(qs, tokens, extra).Some?
    ensures var filled := FillFrom(qs, tokens, extra).value;
            && (forall p :: p in filled && ColonPair(p) ==> extra && p.0 == QUANTILE && Colons(p.1) == 1)
            && (|tokens| > |qs| ==> exists p :: p in filled && ColonPair(p))
  {
    if qs != [] {
      var quantile := extra && qs[0].keyword == QUANTILE;
      var used := if quantile then 2 else 1;
      var value := if quantile then tokens[0] + ":" + tokens[1] else tokens[0];
      var rest := tokens[used..];
      FilledColons(qs[1..], rest, extra);
      assert forall t :: t in rest ==> t in tokens;
      var filled := FillFrom(qs, tokens, extra).value;
      assert filled == Kept(qs[0], value) + FillFrom(qs[1..], rest, extra).value;
      assert tokens[0] in tokens;
      if quantile {
        assert tokens[1] in tokens;
        ColonsConcat(tokens[0] + ":", tokens[1]);
        ColonsConcat(tokens[0], ":");
        assert Colons(value) == 1 && value != "";
      }
      hide FillFrom, Colons;
      var first, others := Kept(qs[0], value), FillFrom(qs[1..], rest, extra).value;
      assert filled == first + others;
      forall p | p in filled && ColonPair(p)
        ensures extra && p.0 == QUANTILE && Colons(p.1) == 1
      {
        assert p in first || p in others;
      }
      if quantile {
        assert first == [(qs[0].keyword, value)] && (QUANTILE, value) in filled && ColonPair((QUANTILE, value));
      } else {
        if |tokens| > |qs| {
          var p :| p in others && ColonPair(p);
          assert p in filled;
        }
      }
    }
  }

  /** The colons of a written key are those of its values. */
  lemma {:induction false} ListedColons(ps: seq<Predicate>, values: seq<string>)
    requires |ps| == |values|
    ensures forall p :: p in Listed(ps, values) ==> exists i :: 0 <= i < |ps| && p == (ps[i].keyword, values[i])
    ensures forall i :: 0 <= i < |ps| && Colons(values[i]) > 0 ==> (ps[i].keyword, values[i]) in Listed(ps, values)
  {
    if ps != [] {
      ListedColons(ps[1..], values[1..]);
      var rest := Listed(ps[1..], values[1..]);
      forall p | p in Listed(ps, values)
        ensures exists i :: 0 <= i < |ps| && p == (ps[i].keyword, values[i])
      {
        if p in rest {
          var i :| 0 <= i < |ps[1..]| && p == (ps[1..][i].keyword, values[1..][i]);
          assert p == (ps[i + 1].keyword, values[i + 1]);
        } else {
          assert p == (ps[0].keyword, values[0]);
        }
      }
      forall i | 0 <= i < |ps| && Colons(values[i]) > 0
        ensures (ps[i].keyword, values[i]) in Listed(ps, values)
      {
        if i > 0 {
          assert ps[1..][i - 1] == ps[i] && values[1..][i - 1] == values[i];
        }
      }
    }
  }

  /** Colons at the quantile only, and one there, are all that a key can have. */
  lemma {:induction false} OnlyAtQuantile(ps: seq<Predicate>, values: seq<string>)
    requires |ps| == |values| && Distinct(Keywords(ps))
    requires forall i :: 0 <= i < |ps| && Colons(values[i]) > 0 ==> ps[i].keyword == QUANTILE && Colons(values[i]) == 1
    ensures Decodable(ps, values)
  {
    if exists q :: 0 <= q < |ps| && Colons(values[q]) > 0 {
      var q :| 0 <= q < |ps| && Colons(values[q]) > 0;
      forall i | 0 <= i < |ps| && i != q
        ensures Colons(values[i]) == 0
      {
        assert Keywords(ps)[i] != Keywords(ps)[q];
      }
      OneColonAt(values, q);
    } else {
      AllPlain(values);
    }
  }

  lemma {:induction false} OneColonAt(values: seq<string>, q: nat)
    requires q < |values| && forall i :: 0 <= i < |values| && i != q ==> Colons(values[i]) == 0
    ensures AllColons(values) == Colons(values[q])
  {
    if q == 0 {
      assert forall v :: v in values[1..] ==> Colons(v) == 0;
      AllPlain(values[1..]);
    } else {
      OneColonAt(values[1..], q - 1);
    }
  }

  /** The tokens with those at one position and the next joined again. */
  function Regrouped(tokens: seq<string>, p: nat): (r: seq<string>)
    requires p + 1 < |tokens|
    ensures |r| == |tokens| - 1
  {
    tokens[..p] + [tokens[p] + ":" + tokens[p + 1]] + tokens[p + 2..]
  }

  /** With one token too many a rule fills in what its quantile joins. */
  lemma {:induction false} ExtraFill(qs: seq<Predicate>, tokens: seq<string>, p: nat)
    requires |tokens| == |qs| + 1 && Distinct(Keywords(qs)) && p < |qs| && qs[p].keyword == QUANTILE
    ensures FillFrom(qs, tokens, true) == Some(Listed(qs, Regrouped(tokens, p)))
  {
    RestDistinct(qs);
    var all := Regrouped(tokens, p);
    if p == 0 {
      assert all[0] == tokens[0] + ":" + tokens[1] && all[1..] == tokens[2..];
      NoQuantileFill(qs[1..], tokens[2..]);
    } else {
      assert Keywords(qs)[0] != Keywords(qs)[p] && qs[1..][p - 1] == qs[p];
      assert all[0] == tokens[0] && all[1..] == Regrouped(tokens[1..], p - 1);
      ExtraFill(qs[1..], tokens[1..], p - 1);
    }
  }

  lemma {:induction false} ExtraNeedsQuantile(qs: seq<Predicate>, tokens: seq<string>)
    requires |tokens| == |qs| + 1 && QUANTILE !in Keywords(qs)
    ensures FillFrom(qs, tokens, true) == None
  {
    if qs != [] {
      assert Keywords(qs) == [qs[0].keyword] + Keywords(qs[1..]);
      ExtraNeedsQuantile(qs[1..], tokens[1..]);
    }
  }

  /** A rule reads back a key that was written with another: as many predicates, decodable
      values, and the same pairs from them, joined at its own quantile where one has a colon. */
  ghost predicate ReadsBack(ps: seq<Predicate>, qs: seq<Predicate>, values: seq<string>)
    requires |ps| == |values|
  {
    && |qs| == |ps| && Decodable(ps, values)
    && if AllColons(values) == 0 then Listed(qs, values) == Listed(ps, values)
       else exists p: nat :: p < |qs| && qs[p].keyword == QUANTILE && Listed(qs, Regrouped(Tokens(values), p)) == Listed(ps, values)
  }

  /** Whatever rule decodes a fingerprint, it gives back the key that was written if and only
      if it reads it back. */
  lemma {:induction false} DecodeIffReadsBack(ps: seq<Predicate>, qs: seq<Predicate>, toKey: ToKey, registry: Registry, key: seq<Pair>)
    requires key != [] && Names(key) == Keywords(ps) && Distinct(Keywords(ps)) && Distinct(Keywords(qs))
    ensures |ps| == |key| &&
            (Decode(qs, Fingerprint(toKey, registry, key)) == Some(Listed(ps, CanonicalValues(toKey, registry, key)))
             <==> ReadsBack(ps, qs, CanonicalValues(toKey, registry, key)))
  {
    hide Fingerprint, CanonicalValues, FillFrom, Listed, ReadsBack, Tokens, Keywords, Names;
    var values := CanonicalValues(toKey, registry, key);
    assert |Names(key)| == |Keywords(ps)|;
    FingerprintIsJoin(toKey, registry, key);
    SplitJoin(values);
    FillIffReadsBack(ps, qs, values);
  }

  lemma {:induction false} FillIffReadsBack(ps: seq<Predicate>, qs: seq<Predicate>, values: seq<string>)
    requires |ps| == |values| && Distinct(Keywords(ps)) && Distinct(Keywords(qs))
    ensures Fill(qs, Tokens(values)) == Some(Listed(ps, values)) <==> ReadsBack(ps, qs, values)
  {
    hide FillFrom, Listed, Tokens, Keywords, Regrouped, ReadsBack;
    var tokens, extra := Tokens(values), |Tokens(values)| == |qs| + 1;
    TokensHaveNoColons(values);
    ListedColons(ps, values);
    if Fill(qs, tokens) == Some(Listed(ps, values)) {
      FilledColons(qs, tokens, extra);
      forall i | 0 <= i < |ps| && Colons(values[i]) > 0
        ensures ps[i].keyword == QUANTILE && Colons(values[i]) == 1
      {
        assert ColonPair((ps[i].keyword, values[i]));
      }
      OnlyAtQuantile(ps, values);
      FilledReadsBack(ps, qs, values);
    }
    if ReadsBack(ps, qs, values) {
      ReadBackFills(ps, qs, values);
    }
  }

  lemma {:induction false} ReadBackFills(ps: seq<Predicate>, qs: seq<Predicate>, values: seq<string>)
    requires |ps| == |values| && Distinct(Keywords(qs)) && ReadsBack(ps, qs, values)
    ensures Fill(qs, Tokens(values)) == Some(Listed(ps, values))
  {
    hide FillFrom, Listed, Keywords, Regrouped;
    if AllColons(values) == 0 {
      PlainTokens(values);
      PlainFill(qs, values);
    } else {
      var p: nat :| p < |qs| && qs[p].keyword == QUANTILE && Listed(qs, Regrouped(Tokens(values), p)) == Listed(ps, values);
      ExtraFill(qs, Tokens(values), p);
    }
  }

  lemma {:induction false} FilledReadsBack(ps: seq<Predicate>, qs: seq<Predicate>, values: seq<string>)
    requires |ps| == |values| && Distinct(Keywords(qs)) && Decodable(ps, values)
    requires Fill(qs, Tokens(values)) == Some(Listed(ps, values))
    ensures ReadsBack(ps, qs, values)
  {
    hide FillFrom, Listed, Keywords, Regrouped;
    var tokens, extra := Tokens(values), |Tokens(values)| == |qs| + 1;
    TokensHaveNoColons(values);
    ListedColons(ps, values);
    FilledColons(qs, tokens, extra);
    if AllColons(values) == 0 {
      PlainTokens(values);
      PlainFill(qs, values);
      NoneHolds(values);
    } else {
      var q :| 0 <= q < |ps| && ps[q].keyword == QUANTILE && Colons(values[q]) == 1;
      assert ColonPair((ps[q].keyword, values[q]));
      assert extra;
      if QUANTILE !in Keywords(qs) {
        ExtraNeedsQuantile(qs, tokens);
      }
      var p :| 0 <= p < |Keywords(qs)| && Keywords(qs)[p] == QUANTILE;
      ExtraFill(qs, tokens, p);
    }
  }

  lemma {:induction false} NoneHolds(values: seq<string>)
    requires AllColons(values) == 0
    ensures forall i :: 0 <= i < |values| ==> Colons(values[i]) == 0
  {
    forall i | 0 <= i < |values|
      ensures Colons(values[i]) == 0
    {
      NoColonAt(values, i);
    }
  }

  lemma {:induction false} AllPlain(values: seq<string>)
    requires forall v :: v in values ==> Colons(v) == 0
    ensures AllColons(values) == 0
  {
    if values != [] {
      assert values[0] in values;
      AllPlain(values[1..]);
    }
  }

  /** Such a leaf exists for every archived field. */
  lemma {:induction false} LeafExists(site: Site, field: Dict) returns (leaf: Lineage)
    requires Decide(site, field).Hit?
    ensures LeafOf(site, field, Decide(site, field).keys, leaf)
  {
    hide DecideRules;
    leaf := LeafOfRules(site, [site.master.types], site.master.rules, field);
  }

  // ----- Two schemas that list a field under the wrong keyword -----

  const NARROW := Rule([Predicate("x", MatchValue("1")), Predicate("y", MatchAlways)], [], map[])
  const WIDE := Rule([Predicate("x", MatchAlways), Predicate("z", MatchAlways)], [], map[])
  const FIRST := Rule([Predicate("b", MatchAlways)], [NARROW], map[])
  const SECOND := Rule([Predicate("b", MatchAlways)], [WIDE], map[])
  const FIELD: Dict := map["b" := "1", "x" := "2", "z" := "3"]

  lemma {:induction false} WalksOfField()
    ensures WalkField(FIRST.predicates, FIELD) == Matched([("b", "1")]) == WalkField(SECOND.predicates, FIELD)
    ensures WalkField(NARROW.predicates, FIELD) == Mismatched
    ensures WalkField(WIDE.predicates, FIELD) == Matched([("x", "2"), ("z", "3")])
  {
    assert FIRST.predicates[1..] == [] && [("b", "1")] + [] == [("b", "1")];
    assert WIDE.predicates[1..] == [Predicate("z", MatchAlways)] && WIDE.predicates[1..][1..] == [];
    assert [("z", "3")] + [] == [("z", "3")];
    assert WalkField(WIDE.predicates[1..], FIELD) == Matched([("z", "3")]);
    assert [("x", "2")] + [("z", "3")] == [("x", "2"), ("z", "3")];
  }

  /** Two sibling index rules with the same index key: the field is archived through
      the second, listing decodes it with the first, under the wrong keyword. */
  lemma {:induction false} AmbiguousIndexDecodesWrong(site: Site, above: Registry, db: Dict)
    ensures var d := DecideRules(site, above, [FIRST, SECOND], 1, FIELD);
            d.Hit? && d.keys == [[("b", "1")], [("x", "2"), ("z", "3")]]
    ensures FirstRuleFor([FIRST, SECOND], [db, DictOf([("b", "1")])], 1) == Some(NARROW)
    ensures Decode(NARROW.predicates, "2:3") == Some([("x", "2"), ("y", "3")])
  {
    WalksOfField();
    var registry := [SECOND.types] + above;
    assert DecideRules(site, [FIRST.types] + above, [NARROW], 2, FIELD) == Pass by {
      assert [NARROW][1..] == [];
      assert DecideRules(site, [FIRST.types] + above, [], 2, FIELD) == Pass;
    }
    assert DecideRules(site, registry, [WIDE], 2, FIELD) == Hit([[("x", "2"), ("z", "3")]], [WIDE.types] + registry);
    assert DecideRule(site, above, FIRST, 1, FIELD) == Pass;
    assert [[("b", "1")]] + [[("x", "2"), ("z", "3")]] == [[("b", "1")], [("x", "2"), ("z", "3")]];
    assert DecideRule(site, above, SECOND, 1, FIELD) == Hit([[("b", "1")], [("x", "2"), ("z", "3")]], [WIDE.types] + registry);
    assert [FIRST, SECOND][1..] == [SECOND];
    assert DecideRules(site, above, [SECOND], 1, FIELD) == DecideRule(site, above, SECOND, 1, FIELD);

    var keys := [db, DictOf([("b", "1")])];
    assert RuleFor(NARROW, keys, 2) == Some(NARROW);
    assert FirstRuleFor([NARROW], keys, 2) == Some(NARROW);
    assert RuleFor(FIRST, keys, 1) == Some(NARROW);

    assert "2" + ":" + "3" == "2:3";
    SplitConcat("2", "3");
    SplitPlain("2");
    SplitPlain("3");
    assert NARROW.predicates[1..] == [Predicate("y", MatchAlways)];
    assert Split("2:3")[1..] == ["3"];
    PlainFill(NARROW.predicates, ["2", "3"]);
    assert ["2", "3"][1..] == ["3"] && ["3"][1..] == [] && NARROW.predicates[1..][1..] == [];
    assert Listed(NARROW.predicates[1..][1..], ["3"][1..]) == [];
    assert Listed(NARROW.predicates[1..], ["3"]) == [("y", "3")] + [] == [("y", "3")];
    assert Listed(NARROW.predicates, ["2", "3"]) == [("x", "2")] + [("y", "3")] == [("x", "2"), ("y", "3")];
  }

  const BOTH := Rule([Predicate("b", MatchAlways)], [NARROW, WIDE], map[])

  /** One index rule with two datum rules: the field is archived through the second, and
      listing looks the first up. */
  lemma {:induction false} SecondDatumRuleDecodesWrong(site: Site, above: Registry, db: Dict)
    ensures var d := DecideRules(site, above, [BOTH], 1, FIELD);
            d.Hit? && d.keys == [[("b", "1")], [("x", "2"), ("z", "3")]]
    ensures FirstRuleFor([BOTH], [db, DictOf([("b", "1")])], 1) == Some(NARROW)
    ensures Keywords(NARROW.predicates) != Keywords(WIDE.predicates)
  {
    WalksOfField();
    assert BOTH.predicates == FIRST.predicates;
    var registry := [BOTH.types] + above;
    assert [NARROW, WIDE][1..] == [WIDE];
    assert DecideRules(site, registry, [WIDE], 2, FIELD) == Hit([[("x", "2"), ("z", "3")]], [WIDE.types] + registry);
    assert DecideRules(site, registry, [NARROW, WIDE], 2, FIELD) == Hit([[("x", "2"), ("z", "3")]], [WIDE.types] + registry);
    assert [[("b", "1")]] + [[("x", "2"), ("z", "3")]] == [[("b", "1")], [("x", "2"), ("z", "3")]];
    assert DecideRule(site, above, BOTH, 1, FIELD) == Hit([[("b", "1")], [("x", "2"), ("z", "3")]], [WIDE.types] + registry);
    assert DecideRules(site, above, [BOTH], 1, FIELD) == DecideRule(site, above, BOTH, 1, FIELD);
    LookupInOne(BOTH, db, DictOf([("b", "1")]));
    assert Answers(BOTH, DictOf([("b", "1")]));
    assert RuleFor(BOTH, [db, DictOf([("b", "1")])], 1) == Some(NARROW);
    assert Keywords(NARROW.predicates)[1] == "y" && Keywords(WIDE.predicates)[1] == "z";
  }

  // ----- The listed key by its values -----

  /** The listed key holds, in the order of the predicates, every pair but those of optional
      predicates with an empty value. */
  lemma {:induction false} ListedExactly(ps: seq<Predicate>, values: seq<string>, p: Predicate, v: string)
    requires |ps| == |values|
    ensures Listed([], []) == []
    ensures Listed(ps + [p], values + [v]) ==
            Listed(ps, values) + match p.matcher
                                 case MatchOptional(_) => if v == "" then [] else [(p.keyword, v)]
                                 case _ => [(p.keyword, v)]
  {
    if ps == [] {
      assert ps + [p] == [p] && values + [v] == [v];
      assert Listed([p][1..], [v][1..]) == [];
      assert Kept(p, v) + [] == Kept(p, v) == [] + Kept(p, v);
    } else {
      assert (ps + [p])[0] == ps[0] && (ps + [p])[1..] == ps[1..] + [p];
      assert (values + [v])[0] == values[0] && (values + [v])[1..] == values[1..] + [v];
      ListedExactly(ps[1..], values[1..], p, v);
      var last := Kept(p, v);
      assert Kept(ps[0], values[0]) + (Listed(ps[1..], values[1..]) + last) == Listed(ps, values) + last;
    }
  }

  const SPREAD := [Predicate("param", MatchAlways), Predicate("quantile", MatchOptional("")), Predicate("levelist", MatchOptional(""))]

  /** A text with a quantile, and an optional value that is empty. */
  lemma {:induction false} QuantileText()
    ensures Decode(SPREAD, "131:3:10:") == Some([("param", "131"), ("quantile", "3:10")])
  {
    SplitsQuantile();
    var q, l := Predicate("quantile", MatchOptional("")), Predicate("levelist", MatchOptional(""));
    assert SPREAD[1..] == [q, l] && [q, l][1..] == [l] && [l][1..] == [];
    assert ["131", "3", "10", ""][1..] == ["3", "10", ""] && ["3", "10", ""][2..] == [""] && [""][1..] == [];
    assert "levelist"[0] != "quantile"[0] && "param"[0] != "quantile"[0] && "3" + ":" + "10" == "3:10";
    var none: seq<Pair> := [];
    assert QUANTILE == "quantile" && none + none == none;
    assert l.keyword != QUANTILE && SPREAD[0].keyword != QUANTILE && SPREAD[0] == Predicate("param", MatchAlways);
    assert FillFrom([], [], true) == Some(none);
    assert Kept(l, "") == none;
    assert FillFrom([l], [""], true) == Some(none);
    assert Kept(q, "3:10") == [("quantile", "3:10")] && [("quantile", "3:10")] + none == [("quantile", "3:10")];
    assert FillFrom([q, l], ["3", "10", ""], true) == Some([("quantile", "3:10")]);
    assert Kept(SPREAD[0], "131") == [("param", "131")];
    assert FillFrom(SPREAD, ["131", "3", "10", ""], true) == Some([("param", "131")] + [("quantile", "3:10")]);
    assert [("param", "131")] + [("quantile", "3:10")] == [("param", "131"), ("quantile", "3:10")];
  }

  lemma {:induction false} SplitsQuantile()
    ensures Split("131:3:10:") == ["131", "3", "10", ""]
  {
    hide Split;
    assert "131:3:10:" == "131" + ":" + "3:10:" && "3:10:" == "3" + ":" + "10:" && "10:" == "10" + ":" + "";
    SplitConcat("131", "3:10:");
    SplitConcat("3", "10:");
    SplitConcat("10", "");
    assert Colons("131") == 0 && Colons("3") == 0 && Colons("10") == 0 && Colons("") == 0;
    SplitPlain("131");
    SplitPlain("3");
    SplitPlain("10");
    SplitPlain("");
  }
}
