/** First-level matching: which database keys a request may lead to
    (`matchFirstLevel`) and which single one it names (`expandFirstLevel`). */
module FirstLevel {
  import opened Wrappers
  import opened Keys
  import opened Rules
  import opened WriteExpansion
  import opened ReadExpansion

  /** `Predicate::values` on a request: `None` where `MarsRequest::values` throws. */
  function RequestValues(p: Predicate, request: Request): Option<seq<string>>
  {
    match p.matcher
    case MatchHidden(def) => Some([def])
    case MatchOptional(def) => Some(if p.keyword in request then request[p.keyword] else [def])
    case _ => if p.keyword in request then Some(request[p.keyword]) else None
  }

  /** The values that first-level matching pushes for a keyword. */
  function FirstValues(p: Predicate, request: Request, missing: string): (vs: seq<string>)
    ensures p.keyword in request ==> Some(vs) == RequestValues(p, request)
  {
    if p.keyword in request then RequestValues(p, request).value else [missing]
  }

  /** A pair that first-level matching lets through: a listed value that the
      predicate takes, or `missing`, unmatched, for a keyword that is not requested. */
  predicate Possible(p: Predicate, request: Request, missing: string, pair: Pair)
  {
    && pair.0 == p.keyword && pair.1 in FirstValues(p, request, missing)
    && (p.keyword in request ==> p.matcher.Accepts(pair.1))
  }

  predicate AllPossible(ps: seq<Predicate>, request: Request, missing: string, pairs: seq<Pair>)
  {
    |pairs| == |ps| && forall i :: 0 <= i < |ps| ==> Possible(ps[i], request, missing, pairs[i])
  }

  /** The key object that first-level matching pushes to and pops from. */
  class KeyCell {
    var key: Key

    constructor ()
      ensures key == KeyOf([])
    {
      key := KeyOf([]);
    }
  }

  /** All keys that one rule contributes behind the pairs `done`. */
  function RuleKeys(ps: seq<Predicate>, request: Request, missing: string, done: seq<Pair>): set<Dict>
    decreases |ps|, 1, 0
  {
    if ps == [] then {DictOf(done)} else ValueKeys(ps, request, missing, done, FirstValues(ps[0], request, missing))
  }

  function ValueKeys(ps: seq<Predicate>, request: Request, missing: string, done: seq<Pair>, values: seq<string>): set<Dict>
    requires ps != []
    decreases |ps|, 0, |values|
  {
    if values == [] then {}
    else
      var taken := ps[0].keyword !in request || ps[0].matcher.Accepts(values[0]);
      (if taken then RuleKeys(ps[1..], request, missing, done + [(ps[0].keyword, values[0])]) else {})
      + ValueKeys(ps, request, missing, done, values[1..])
  }

  lemma {:induction false} InRuleKeys(ps: seq<Predicate>, request: Request, missing: string, done: seq<Pair>, key: Dict)
    ensures key in RuleKeys(ps, request, missing, done) <==>
            exists pairs :: AllPossible(ps, request, missing, pairs) && key == DictOf(done + pairs)
    decreases |ps|, 1, 0
  {
    hide DictOf, FirstValues, Taken;
    if ps == [] {
      assert done + [] == done && AllPossible(ps, request, missing, []);
      assert forall pairs :: AllPossible(ps, request, missing, pairs) ==> pairs == [];
    } else {
      var values := FirstValues(ps[0], request, missing);
      InValueKeys(ps, request, missing, done, values, key);
      if key in RuleKeys(ps, request, missing, done) {
        var v, rest :| v in values && Taken(ps[0], request, v) && AllPossible(ps[1..], request, missing, rest)
                       && key == DictOf(done + [(ps[0].keyword, v)] + rest);
        PossibleStep(ps, request, missing, v, rest);
        var pairs := [(ps[0].keyword, v)] + rest;
        Shifted(done, (ps[0].keyword, v), rest);
      }
      forall pairs: seq<Pair> | AllPossible(ps, request, missing, pairs) && key == DictOf(done + pairs)
        ensures key in RuleKeys(ps, request, missing, done)
      {
        PossibleSplit(ps, request, missing, pairs);
        Shifted(done, pairs[0], pairs[1..]);
        assert pairs == [pairs[0]] + pairs[1..];
      }
    }
  }

  lemma {:induction false} Shifted(done: seq<Pair>, pair: Pair, rest: seq<Pair>)
    ensures done + [pair] + rest == done + ([pair] + rest)
  {
  }

  lemma {:induction false} PossibleStep(ps: seq<Predicate>, request: Request, missing: string, v: string, rest: seq<Pair>)
    requires ps != [] && v in FirstValues(ps[0], request, missing) && Taken(ps[0], request, v) && AllPossible(ps[1..], request, missing, rest)
    ensures AllPossible(ps, request, missing, [(ps[0].keyword, v)] + rest)
  {
    hide FirstValues;
    var pairs := [(ps[0].keyword, v)] + rest;
    forall i | 0 <= i < |ps|
      ensures Possible(ps[i], request, missing, pairs[i])
    {
      assert i > 0 ==> ps[i] == ps[1..][i - 1] && pairs[i] == rest[i - 1];
    }
  }

  lemma {:induction false} PossibleSplit(ps: seq<Predicate>, request: Request, missing: string, pairs: seq<Pair>)
    requires ps != [] && AllPossible(ps, request, missing, pairs)
    ensures pairs != [] && pairs[0] == (ps[0].keyword, pairs[0].1)
    ensures pairs[0].1 in FirstValues(ps[0], request, missing) && Taken(ps[0], request, pairs[0].1)
    ensures AllPossible(ps[1..], request, missing, pairs[1..])
  {
    hide FirstValues;
    assert Possible(ps[0], request, missing, pairs[0]);
    forall i | 0 <= i < |ps| - 1
      ensures Possible(ps[1..][i], request, missing, pairs[1..][i])
    {
      assert Possible(ps[i + 1], request, missing, pairs[i + 1]);
    }
  }

  predicate Taken(p: Predicate, request: Request, v: string)
  {
    p.keyword !in request || p.matcher.Accepts(v)
  }

  lemma {:induction false} InValueKeys(ps: seq<Predicate>, request: Request, missing: string, done: seq<Pair>, values: seq<string>, key: Dict)
    requires ps != []
    ensures key in ValueKeys(ps, request, missing, done, values) <==>
            exists v, rest :: v in values && Taken(ps[0], request, v) && AllPossible(ps[1..], request, missing, rest)
                              && key == DictOf(done + [(ps[0].keyword, v)] + rest)
    decreases |ps|, 0, |values|
  {
    hide DictOf, FirstValues, AllPossible;
    if values != [] {
      InRuleKeys(ps[1..], request, missing, done + [(ps[0].keyword, values[0])], key);
      InValueKeys(ps, request, missing, done, values[1..], key);
    }
  }

  /** `Rule::matchFirstLevel` on a request, from predicate `cur` on: the result gains
      the keys of the rule, and the working key is put back. */
  method MatchFrom(rule: Rule, cur: nat, request: Request, missing: string, tmp: KeyCell, result: set<Dict>, ghost done: seq<Pair>)
    returns (grown: set<Dict>)
    requires cur <= |rule.predicates| && tmp.key == KeyOf(done)
    requires Distinct(Names(done) + Keywords(rule.predicates[cur..]))
    modifies tmp
    ensures tmp.key == old(tmp.key)
    ensures grown == result + RuleKeys(rule.predicates[cur..], request, missing, done)
    decreases |rule.predicates| - cur
  {
    hide DictOf, Names, Keywords, Distinct, FirstValues, RequestValues;
    if cur == |rule.predicates| {
      return result + {tmp.key.dict};
    }
    var p := rule.predicates[cur];
    ghost var ps := rule.predicates[cur..];
    assert ps[0] == p && ps[1..] == rule.predicates[cur + 1..];
    var values := FirstValues(p, request, missing);
    grown := result;
    var i := 0;
    assert values[0..] == values;
    while i < |values|
      invariant 0 <= i <= |values| && tmp.key == old(tmp.key)
      invariant grown + ValueKeys(ps, request, missing, done, values[i..]) == result + ValueKeys(ps, request, missing, done, values)
    {
      assert values[i..][0] == values[i] && values[i..][1..] == values[i + 1..];
      ghost var pair := (p.keyword, values[i]);
      NextPush(done, rule.predicates, cur, pair);
      tmp.key := tmp.key.Push(p.keyword, values[i]);
      if p.keyword !in request || p.Match(tmp.key.dict) {
        grown := MatchFrom(rule, cur + 1, request, missing, tmp, grown, done + [pair]);
      }
      tmp.key := tmp.key.Pop(p.keyword);
      i := i + 1;
    }
  }

  lemma {:induction false} NextPush(done: seq<Pair>, ps: seq<Predicate>, cur: nat, pair: Pair)
    requires cur < |ps| && pair.0 == ps[cur].keyword
    requires Distinct(Names(done) + Keywords(ps[cur..]))
    ensures KeyOf(done + [pair]) == KeyOf(done).Push(pair.0, pair.1)
    ensures KeyOf(done).Push(pair.0, pair.1).Pop(pair.0) == KeyOf(done)
    ensures Distinct(Names(done + [pair]) + Keywords(ps[cur + 1..]))
  {
    assert Names(done + [pair]) + Keywords(ps[cur + 1..]) == Names(done) + Keywords(ps[cur..]);
    KeyOfPush(done, pair);
    DictOfKeys(done);
    var all := Names(done) + Keywords(ps[cur..]);
    assert all[|done|] == pair.0;
    assert forall i :: 0 <= i < |done| ==> all[i] == Names(done)[i];
    PopUndoesPush(KeyOf(done), pair.0, pair.1);
  }

  /** `Schema::matchFirstLevel` on a request: the keys of every rule. */
  method MatchFirstLevel(schema: Schema, request: Request, missing: string) returns (result: set<Dict>)
    requires forall r :: r in schema.rules ==> Distinct(Keywords(r.predicates))
    ensures forall k :: k in result <==> Given(schema.rules, request, missing, k)
  {
    hide RuleKeys, Given;
    NoneGiven(request, missing);
    assert schema.rules[..0] == [];
    result := {};
    var i := 0;
    while i < |schema.rules|
      invariant 0 <= i <= |schema.rules|
      invariant forall k :: k in result <==> Given(schema.rules[..i], request, missing, k)
    {
      result := MatchRule(schema.rules[i], request, missing, result);
      GivenStep(schema.rules, i, request, missing);
      i := i + 1;
    }
    assert schema.rules[..i] == schema.rules;
  }

  /** One rule, with a new working key. */
  method MatchRule(r: Rule, request: Request, missing: string, result: set<Dict>) returns (grown: set<Dict>)
    requires Distinct(Keywords(r.predicates))
    ensures grown == result + RuleKeys(r.predicates, request, missing, [])
  {
    hide RuleKeys;
    var tmp := new KeyCell();
    assert r.predicates[0..] == r.predicates && Names([]) + Keywords(r.predicates) == Keywords(r.predicates);
    grown := MatchFrom(r, 0, request, missing, tmp, result, []);
  }

  /** Some rule gives the key. */
  predicate Given(rules: seq<Rule>, request: Request, missing: string, key: Dict)
  {
    exists i :: 0 <= i < |rules| && key in RuleKeys(rules[i].predicates, request, missing, [])
  }

  lemma {:induction false} NoneGiven(request: Request, missing: string)
    ensures forall k :: !Given([], request, missing, k)
  {
  }

  lemma {:induction false} GivenStep(rules: seq<Rule>, i: nat, request: Request, missing: string)
    requires i < |rules|
    ensures forall k :: Given(rules[..i + 1], request, missing, k) <==>
              Given(rules[..i], request, missing, k) || k in RuleKeys(rules[i].predicates, request, missing, [])
  {
    hide RuleKeys;
    forall k: Dict
      ensures Given(rules[..i + 1], request, missing, k) <==>
                Given(rules[..i], request, missing, k) || k in RuleKeys(rules[i].predicates, request, missing, [])
    {
      if k in RuleKeys(rules[i].predicates, request, missing, []) {
        assert rules[..i + 1][i] == rules[i];
      }
      if Given(rules[..i], request, missing, k) {
        var j :| 0 <= j < |rules[..i]| && k in RuleKeys(rules[..i][j].predicates, request, missing, []);
        assert rules[..i + 1][j] == rules[..i][j];
      }
    }
  }

  // ----- Matching never hides a database -----

  /** A database key as first-level matching sees it: unrequested keywords masked. */
  function Masked(ps: seq<Pair>, request: Request, missing: string): seq<Pair>
  {
    seq(|ps|, i requires 0 <= i < |ps| => (ps[i].0, if ps[i].0 in request then ps[i].1 else missing))
  }

  /** The database key of a hit was built by a rule of the configured schema. */
  lemma {:induction false} HitFromMaster(site: Site, above: Registry, rules: seq<Rule>, field: Dict) returns (r: Rule)
    requires DecideRules(site, above, rules, 0, field).Hit?
    ensures var keys := DecideRules(site, above, rules, 0, field).keys;
            keys != [] && r in rules && WalkField(r.predicates, field) == Matched(keys[0])
  {
    hide DecideSecond;
    if DecideRule(site, above, rules[0], 0, field).Hit? {
      r := rules[0];
    } else {
      r := HitFromMaster(site, above, rules[1..], field);
    }
  }

  /** The written value of every requested keyword is among the requested ones. */
  predicate RequestsKey(request: Request, rule: Rule, ps: seq<Pair>)
    requires |ps| == |rule.predicates|
  {
    forall i :: 0 <= i < |ps| && ps[i].0 in request && !rule.predicates[i].matcher.MatchHidden? ==> ps[i].1 in request[ps[i].0]
  }

  lemma {:induction false} MaskedIsPossible(rule: Rule, field: Dict, request: Request, missing: string)
    requires WalkField(rule.predicates, field).Matched? && RequestsKey(request, rule, WalkField(rule.predicates, field).pairs)
    ensures AllPossible(rule.predicates, request, missing, Masked(WalkField(rule.predicates, field).pairs, request, missing))
  {
    hide WalkField;
    var ps := WalkField(rule.predicates, field).pairs;
    var masked := Masked(ps, request, missing);
    forall i | 0 <= i < |ps|
      ensures Possible(rule.predicates[i], request, missing, masked[i])
    {
      assert rule.predicates[i].Value(field) == Some(ps[i].1);
    }
  }

  lemma {:induction false} RuleNeverHides(rule: Rule, field: Dict, request: Request, missing: string)
    requires WalkField(rule.predicates, field).Matched? && RequestsKey(request, rule, WalkField(rule.predicates, field).pairs)
    ensures DictOf(Masked(WalkField(rule.predicates, field).pairs, request, missing)) in RuleKeys(rule.predicates, request, missing, [])
  {
    hide RuleKeys, DictOf, Masked, RequestsKey, WalkField;
    var masked := Masked(WalkField(rule.predicates, field).pairs, request, missing);
    MaskedIsPossible(rule, field, request, missing);
    assert [] + masked == masked;
    InRuleKeys(rule.predicates, request, missing, [], DictOf(masked));
  }

  /** Whatever database a field was archived into, matching a request with the
      field's values on the keywords it mentions yields that database's masked key. */
  lemma {:induction false} NeverHidden(site: Site, field: Dict, request: Request, missing: string)
    requires Decide(site, field).Hit?
    requires forall r :: r in site.master.rules && WalkField(r.predicates, field) == Matched(Decide(site, field).keys[0]) ==>
               RequestsKey(request, r, Decide(site, field).keys[0])
    ensures Given(site.master.rules, request, missing, DictOf(Masked(Decide(site, field).keys[0], request, missing)))
  {
    hide DecideRules, RuleKeys, Masked, RequestsKey;
    var r := HitFromMaster(site, [site.master.types], site.master.rules, field);
    RuleNeverHides(r, field, request, missing);
    var i :| 0 <= i < |site.master.rules| && site.master.rules[i] == r;
  }

  // ----- The one database that a request names -----

  datatype First = Found(pairs: seq<Pair>) | NotFound | Threw(keyword: string)

  function FirstOf(ps: seq<Predicate>, request: Request): First
    decreases |ps|, 1, 0
  {
    if ps == [] then Found([])
    else match RequestValues(ps[0], request)
      case None => Threw(ps[0].keyword)
      case Some(values) => FirstOver(ps, request, values)
  }

  function FirstOver(ps: seq<Predicate>, request: Request, values: seq<string>): First
    requires ps != []
    decreases |ps|, 0, |values|
  {
    if values == [] then NotFound
    else if !ps[0].matcher.Accepts(values[0]) then FirstOver(ps, request, values[1..])
    else match FirstOf(ps[1..], request)
      case Found(rest) => Found([(ps[0].keyword, values[0])] + rest)
      case NotFound => FirstOver(ps, request, values[1..])
      case Threw(keyword) => Threw(keyword)
  }

  /** The value is the first one of a list that the predicate takes. */
  predicate FirstTaken(p: Predicate, values: seq<string>, v: string)
  {
    exists i :: 0 <= i < |values| && values[i] == v && p.matcher.Accepts(v) && forall j :: 0 <= j < i ==> !p.matcher.Accepts(values[j])
  }

  predicate AllFirst(ps: seq<Predicate>, request: Request, pairs: seq<Pair>)
  {
    && |pairs| == |ps|
    && forall i :: 0 <= i < |ps| ==>
         && pairs[i].0 == ps[i].keyword && RequestValues(ps[i], request).Some?
         && FirstTaken(ps[i], RequestValues(ps[i], request).value, pairs[i].1)
  }

  /** The first value that is taken, for a list that begins with one that is, or is not. */
  lemma {:induction false} TakenStep(p: Predicate, values: seq<string>, v: string)
    requires values != []
    ensures FirstTaken(p, values, v) <==> if p.matcher.Accepts(values[0]) then v == values[0] else FirstTaken(p, values[1..], v)
  {
    var rest := values[1..];
    if p.matcher.Accepts(values[0]) {
      assert v == values[0] ==> FirstTaken(p, values, v);
    } else {
      if FirstTaken(p, rest, v) {
        var i :| 0 <= i < |rest| && rest[i] == v && forall j :: 0 <= j < i ==> !p.matcher.Accepts(rest[j]);
        assert values[i + 1] == v;
        assert forall j :: 0 < j < i + 1 ==> values[j] == rest[j - 1];
      }
      if FirstTaken(p, values, v) {
        var i :| 0 <= i < |values| && values[i] == v && p.matcher.Accepts(values[i]) && forall j :: 0 <= j < i ==> !p.matcher.Accepts(values[j]);
        assert rest[i - 1] == v;
        assert forall j :: 0 <= j < i - 1 ==> rest[j] == values[j + 1];
      }
    }
  }

  lemma {:induction false} FirstOverTaken(ps: seq<Predicate>, request: Request, values: seq<string>, pairs: seq<Pair>)
    requires ps != []
    ensures FirstOver(ps, request, values) == Found(pairs) <==>
            pairs != [] && pairs[0].0 == ps[0].keyword && FirstTaken(ps[0], values, pairs[0].1) && FirstOf(ps[1..], request) == Found(pairs[1..])
    decreases |values|
  {
    hide FirstOf, FirstTaken;
    if values == [] {
      if pairs != [] {
        NoneTaken(ps[0], pairs[0].1);
      }
    } else {
      FirstOverTaken(ps, request, values[1..], pairs);
      if pairs != [] {
        TakenStep(ps[0], values, pairs[0].1);
        assert pairs == [pairs[0]] + pairs[1..];
      }
      var inner := FirstOf(ps[1..], request);
      if inner.Found? {
        assert ([(ps[0].keyword, values[0])] + inner.pairs)[1..] == inner.pairs;
      }
    }
  }

  lemma {:induction false} NoneTaken(p: Predicate, v: string)
    ensures !FirstTaken(p, [], v)
  {
  }

  /** A request names a database key through a rule exactly when every keyword has a
      value that the rule takes, and then with the first such value of each. */
  lemma {:induction false} FirstOfIsFirst(ps: seq<Predicate>, request: Request, pairs: seq<Pair>)
    ensures FirstOf(ps, request) == Found(pairs) <==> AllFirst(ps, request, pairs)
    decreases |ps|
  {
    hide FirstTaken, FirstOver;
    if ps != [] {
      var values := RequestValues(ps[0], request);
      if pairs != [] {
        FirstOfIsFirst(ps[1..], request, pairs[1..]);
        if values.Some? && pairs[0].0 == ps[0].keyword && FirstTaken(ps[0], values.value, pairs[0].1) && AllFirst(ps[1..], request, pairs[1..]) {
          forall i | 0 <= i < |ps|
            ensures pairs[i].0 == ps[i].keyword && RequestValues(ps[i], request).Some?
                    && FirstTaken(ps[i], RequestValues(ps[i], request).value, pairs[i].1)
          {
            assert i > 0 ==> ps[i] == ps[1..][i - 1] && pairs[i] == pairs[1..][i - 1];
          }
        }
        if AllFirst(ps, request, pairs) {
          assert AllFirst(ps[1..], request, pairs[1..]);
        }
      }
      if values.Some? {
        FirstOverTaken(ps, request, values.value, pairs);
      }
    }
  }

  /** The loop of `Schema::expandFirstLevel` over the rules. */
  function FirstOfRules(rules: seq<Rule>, request: Request): First
  {
    if rules == [] then NotFound
    else match FirstOf(rules[0].predicates, request)
      case NotFound => FirstOfRules(rules[1..], request)
      case first => first
  }

  /** The pairs are what a rule gives, and the rules before it give nothing. */
  ghost predicate NamedBy(rules: seq<Rule>, n: nat, request: Request, pairs: seq<Pair>)
  {
    && n < |rules| && AllFirst(rules[n].predicates, request, pairs)
    && forall m :: 0 <= m < n ==> FirstOf(rules[m].predicates, request) == NotFound
  }

  /** A request names a database key exactly through the first rule that does not refuse
      all of its values; a rule for which it lacks a keyword ends the search. */
  lemma {:induction false} FirstRuleNames(rules: seq<Rule>, request: Request, pairs: seq<Pair>)
    ensures FirstOfRules(rules, request) == Found(pairs) <==> exists n: nat :: NamedBy(rules, n, request, pairs)
  {
    hide FirstOf, AllFirst;
    if rules != [] {
      FirstOfIsFirst(rules[0].predicates, request, pairs);
      FirstRuleNames(rules[1..], request, pairs);
      if n: nat :| NamedBy(rules, n, request, pairs) {
        FirstOfIsFirst(rules[n].predicates, request, pairs);
        if n > 0 {
          assert forall m :: 0 <= m < n - 1 ==> rules[1..][m] == rules[m + 1];
          assert NamedBy(rules[1..], n - 1, request, pairs);
        }
      }
      if FirstOf(rules[0].predicates, request) == Found(pairs) {
        assert NamedBy(rules, 0, request, pairs);
      }
      if n: nat :| NamedBy(rules[1..], n, request, pairs) {
        if FirstOf(rules[0].predicates, request) == NotFound {
          forall m | 0 <= m < n + 1
            ensures FirstOf(rules[m].predicates, request) == NotFound
          {
            assert m > 0 ==> rules[m] == rules[1..][m - 1];
          }
          assert NamedBy(rules, n + 1, request, pairs);
        }
      }
    }
  }

  lemma {:induction false} FirstIsPossible(ps: seq<Predicate>, request: Request, missing: string, pairs: seq<Pair>)
    requires AllFirst(ps, request, pairs)
    ensures AllPossible(ps, request, missing, Masked(pairs, request, missing))
  {
    var masked := Masked(pairs, request, missing);
    forall i | 0 <= i < |ps|
      ensures Possible(ps[i], request, missing, masked[i])
    {
      assert FirstTaken(ps[i], RequestValues(ps[i], request).value, pairs[i].1);
    }
  }

  /** The key that a request names in a schema is, with the keywords masked that it does not
      mention, one of those that it matches. */
  lemma {:induction false} NamedIsMatched(rules: seq<Rule>, request: Request, missing: string)
    requires FirstOfRules(rules, request).Found?
    ensures Given(rules, request, missing, DictOf(Masked(FirstOfRules(rules, request).pairs, request, missing)))
  {
    hide RuleKeys, DictOf, FirstOf, FirstOfRules, Masked, AllFirst, AllPossible;
    var pairs := FirstOfRules(rules, request).pairs;
    FirstRuleNames(rules, request, pairs);
    var n: nat :| NamedBy(rules, n, request, pairs);
    var masked := Masked(pairs, request, missing);
    FirstIsPossible(rules[n].predicates, request, missing, pairs);
    assert [] + masked == masked;
    InRuleKeys(rules[n].predicates, request, missing, [], DictOf(masked));
  }

  /** `Rule::expandFirstLevel` on a request: the result key is kept when a full match
      is found and put back otherwise; `Some(keyword)` is the exception. */
  method ExpandFrom(rule: Rule, cur: nat, request: Request, result: KeyCell, ghost done: seq<Pair>)
    returns (found: bool, threw: Option<string>)
    requires cur <= |rule.predicates| && result.key == KeyOf(done)
    requires Distinct(Names(done) + Keywords(rule.predicates[cur..]))
    modifies result
    ensures match FirstOf(rule.predicates[cur..], request)
            case Found(pairs) => found && threw.None? && result.key == KeyOf(done + pairs)
            case NotFound => !found && threw.None? && result.key == old(result.key)
            case Threw(keyword) => threw == Some(keyword)
    decreases |rule.predicates| - cur
  {
    hide DictOf, Names, Keywords, Distinct, RequestValues;
    ghost var ps := rule.predicates[cur..];
    if cur == |rule.predicates| {
      assert done + [] == done;
      return true, None;
    }
    var p := rule.predicates[cur];
    assert ps[0] == p && ps[1..] == rule.predicates[cur + 1..];
    var values := RequestValues(p, request);
    if values.None? {
      return false, Some(p.keyword);
    }
    var i := 0;
    assert values.value[0..] == values.value;
    while i < |values.value|
      invariant 0 <= i <= |values.value| && result.key == old(result.key)
      invariant FirstOver(ps, request, values.value) == FirstOver(ps, request, values.value[i..])
    {
      assert values.value[i..][0] == values.value[i] && values.value[i..][1..] == values.value[i + 1..];
      var pair := (p.keyword, values.value[i]);
      NextPush(done, rule.predicates, cur, pair);
      result.key := result.key.Push(p.keyword, values.value[i]);
      if p.Match(result.key.dict) {
        found, threw := ExpandFrom(rule, cur + 1, request, result, done + [pair]);
        if threw.Some? {
          return;
        }
        if found {
          ghost var rest := FirstOf(ps[1..], request).pairs;
          assert (done + [pair]) + rest == done + ([pair] + rest);
          return;
        }
      }
      result.key := result.key.Pop(p.keyword);
      i := i + 1;
    }
    return false, None;
  }

  /** `Schema::expandFirstLevel` on a request: one result key for all rules. */
  method ExpandFirstLevel(schema: Schema, request: Request, result: KeyCell) returns (found: bool, threw: Option<string>)
    requires result.key == KeyOf([]) && forall r :: r in schema.rules ==> Distinct(Keywords(r.predicates))
    modifies result
    ensures match FirstOfRules(schema.rules, request)
            case Found(pairs) => found && threw.None? && result.key == KeyOf(pairs)
            case NotFound => !found && threw.None? && result.key == KeyOf([])
            case Threw(keyword) => threw == Some(keyword)
  {
    hide DictOf, Names, Keywords, Distinct, FirstOf;
    var i := 0;
    assert schema.rules[0..] == schema.rules;
    while i < |schema.rules|
      invariant 0 <= i <= |schema.rules| && result.key == KeyOf([])
      invariant FirstOfRules(schema.rules, request) == FirstOfRules(schema.rules[i..], request)
    {
      var r := schema.rules[i];
      assert schema.rules[i..][0] == r && schema.rules[i..][1..] == schema.rules[i + 1..];
      assert r.predicates[0..] == r.predicates && Names([]) + Keywords(r.predicates) == Keywords(r.predicates) by { NoNames(); }
      found, threw := ExpandFrom(r, 0, request, result, []);
      if threw.Some? {
        return;
      }
      if found {
        ghost var pairs := FirstOf(r.predicates, request).pairs;
        assert [] + pairs == pairs;
        return;
      }
      i := i + 1;
    }
    return false, None;
  }

  lemma {:induction false} NoNames()
    ensures Names([]) == []
  {
  }

  // ----- By the matchers themselves -----

  /** The values that a predicate has for a request: its default where it is hidden, the
      requested ones, or the default of an optional one; nothing where it throws. */
  ghost predicate HasValues(p: Predicate, request: Request, values: seq<string>)
  {
    match p.matcher
    case MatchHidden(def) => values == [def]
    case MatchOptional(def) => values == if p.keyword in request then request[p.keyword] else [def]
    case _ => p.keyword in request && values == request[p.keyword]
  }

  predicate TakesIt(p: Predicate, v: string)
  {
    match p.matcher
    case MatchValue(value) => v == value
    case MatchAny(values) => v in values
    case _ => true
  }

  /** A key is given exactly if it has one pair for every predicate: one of its values that it
      takes, where the keyword is requested, and otherwise the mark for a missing one. */
  lemma {:induction false} GivenExactly(ps: seq<Predicate>, request: Request, missing: string, key: Dict)
    ensures key in RuleKeys(ps, request, missing, []) <==>
            exists t :: key == DictOf(t) && |t| == |ps| && forall i :: 0 <= i < |ps| ==> GivenPair(ps[i], request, missing, t[i])
  {
    hide DictOf, RuleKeys;
    InRuleKeys(ps, request, missing, [], key);
    forall t: seq<Pair>
      ensures AllPossible(ps, request, missing, t) <==> |t| == |ps| && forall i :: 0 <= i < |ps| ==> GivenPair(ps[i], request, missing, t[i])
      ensures [] + t == t
    {
      forall i | 0 <= i < |ps| && |t| == |ps|
        ensures Possible(ps[i], request, missing, t[i]) <==> GivenPair(ps[i], request, missing, t[i])
      {
        PossibleExactly(ps[i], request, missing, t[i]);
      }
    }
  }

  ghost predicate GivenPair(p: Predicate, request: Request, missing: string, pair: Pair)
  {
    && pair.0 == p.keyword
    && if p.keyword in request then (exists values :: HasValues(p, request, values) && pair.1 in values) && TakesIt(p, pair.1)
       else pair.1 == missing
  }

  lemma {:induction false} PossibleExactly(p: Predicate, request: Request, missing: string, pair: Pair)
    ensures Possible(p, request, missing, pair) <==> GivenPair(p, request, missing, pair)
  {
    if p.keyword in request {
      assert HasValues(p, request, RequestValues(p, request).value);
    }
  }

  /** The pair of the first value that a predicate takes. */
  ghost predicate FirstPair(p: Predicate, request: Request, pair: Pair)
  {
    && pair.0 == p.keyword
    && exists values, n :: HasValues(p, request, values) && 0 <= n < |values| && values[n] == pair.1 && TakesIt(p, pair.1)
                           && forall m :: 0 <= m < n ==> !TakesIt(p, values[m])
  }

  /** A request names a key through a rule exactly by the first values that its predicates take. */
  lemma {:induction false} NamesExactly(ps: seq<Predicate>, request: Request, pairs: seq<Pair>)
    ensures FirstOf(ps, request) == Found(pairs) <==> |pairs| == |ps| && forall i :: 0 <= i < |ps| ==> FirstPair(ps[i], request, pairs[i])
  {
    hide FirstOf;
    FirstOfIsFirst(ps, request, pairs);
    forall i | 0 <= i < |ps| && |pairs| == |ps|
      ensures FirstPair(ps[i], request, pairs[i]) <==>
              pairs[i].0 == ps[i].keyword && RequestValues(ps[i], request).Some? && FirstTaken(ps[i], RequestValues(ps[i], request).value, pairs[i].1)
    {
      FirstPairExactly(ps[i], request, pairs[i]);
    }
  }

  lemma {:induction false} FirstPairExactly(p: Predicate, request: Request, pair: Pair)
    ensures FirstPair(p, request, pair) <==>
            pair.0 == p.keyword && RequestValues(p, request).Some? && FirstTaken(p, RequestValues(p, request).value, pair.1)
  {
    forall v: string
      ensures TakesIt(p, v) == p.matcher.Accepts(v)
    {
    }
    forall values: seq<string>
      ensures HasValues(p, request, values) <==> RequestValues(p, request) == Some(values)
    {
    }
    hide HasValues, TakesIt, RequestValues;
    if FirstPair(p, request, pair) {
      var values, n :| HasValues(p, request, values) && 0 <= n < |values| && values[n] == pair.1 && TakesIt(p, pair.1)
                       && forall m :: 0 <= m < n ==> !TakesIt(p, values[m]);
      assert FirstTaken(p, values, pair.1);
    }
    if pair.0 == p.keyword && RequestValues(p, request).Some? && FirstTaken(p, RequestValues(p, request).value, pair.1) {
      var values := RequestValues(p, request).value;
      var n :| 0 <= n < |values| && values[n] == pair.1 && p.matcher.Accepts(pair.1) && forall j :: 0 <= j < n ==> !p.matcher.Accepts(values[j]);
      assert HasValues(p, request, values);
    }
  }
}
