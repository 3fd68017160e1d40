/** The schema: a three-level forest of rules, each a list of predicates on
    keywords.  Matchers decide which values of a keyword a rule takes. */
module Rules {
  import opened Wrappers
  import opened Keys

  datatype Matcher =
    | MatchAlways
    | MatchValue(value: string)
    | MatchAny(values: seq<string>)   // the source's ordered set: strictly ascending
    | MatchOptional(def: string)
    | MatchHidden(def: string)
  {
    predicate Optional() { MatchOptional? || MatchHidden? }

    /** `match` on a key that holds `v` for the matcher's keyword. */
    predicate Accepts(v: string)
    {
      match this
      case MatchValue(value) => v == value
      case MatchAny(values) => v in values
      case _ => true
    }
  }

  datatype Predicate = Predicate(keyword: string, matcher: Matcher)
  {
    /** `Predicate::match`: an absent keyword only fails the two value matchers. */
    predicate Match(key: Dict)
    {
      match matcher
      case MatchValue(value) => keyword in key && key[keyword] == value
      case MatchAny(values) => keyword in key && key[keyword] in values
      case _ => true
    }

    /** `Predicate::value`: the one value of a field, `None` where `Key::get` throws. */
    function Value(field: Dict): Option<string>
    {
      match matcher
      case MatchHidden(def) => Some(def)
      case MatchOptional(def) => Some(if keyword in field then field[keyword] else def)
      case _ => if keyword in field then Some(field[keyword]) else None
    }
  }

  /** The declared types of a rule: keyword to type name. */
  type Types = map<string, string>

  datatype Rule = Rule(predicates: seq<Predicate>, rules: seq<Rule>, types: Types)
  {
    /** `Rule::match`: every predicate matches the key. */
    predicate Match(key: Dict)
    {
      forall p :: p in predicates ==> p.Match(key)
    }
  }

  datatype Schema = Schema(types: Types, rules: seq<Rule>)

  /** A registry with its parents, innermost first. */
  type Registry = seq<Types>

  /** `TypesRegistry::lookupType`: the innermost declaration, or the default type. */
  function TypeOf(registry: Registry, keyword: string): string
  {
    if registry == [] then "Default"
    else if keyword in registry[0] then registry[0][keyword]
    else TypeOf(registry[1..], keyword)
  }

  /** `Type::toKey` as a function of the type's name and the value. */
  type ToKey = (string, string) -> string

  /** `Key::canonicalise`: the empty value is never converted. */
  function Canonical(toKey: ToKey, registry: Registry, p: Pair): string
  {
    if p.1 == "" then "" else toKey(TypeOf(registry, p.0), p.1)
  }

  function Keywords(ps: seq<Predicate>): (ks: seq<string>)
    ensures |ks| == |ps|
    ensures forall i :: 0 <= i < |ps| ==> ks[i] == ps[i].keyword
  {
    seq(|ps|, i requires 0 <= i < |ps| => ps[i].keyword)
  }

  function KeywordSet(ps: seq<Predicate>): set<string>
  {
    set k | k in Keywords(ps)
  }

  /** No keyword occurs twice on a path that starts below the keywords of `above`,
      and a rule with children has a predicate. */
  predicate WellFormed(rule: Rule, above: set<string>)
    decreases rule
  {
    && (rule.rules != [] ==> rule.predicates != [])
    && Distinct(Keywords(rule.predicates))
    && KeywordSet(rule.predicates) !! above
    && forall r :: r in rule.rules ==> WellFormed(r, above + KeywordSet(rule.predicates))
  }

  /** The first rule of a list that matches a key, as `Schema::expandSecond` looks for it. */
  function FirstMatch(rules: seq<Rule>, key: Dict): (r: Option<Rule>)
    ensures r.Some? ==> r.value in rules && r.value.Match(key)
    ensures r.None? ==> forall q :: q in rules ==> !q.Match(key)
  {
    if rules == [] then None
    else if rules[0].Match(key) then Some(rules[0])
    else FirstMatch(rules[1..], key)
  }

  /** One step of a walk over the predicates of a rule. */
  datatype Walk = Matched(pairs: seq<Pair>) | Mismatched | Missing(keyword: string)

  /** The walk of write expansion over the predicates of one rule: one value per
      keyword, stopping at the first missing or refused one. */
  function WalkField(ps: seq<Predicate>, field: Dict): (w: Walk)
    ensures w.Matched? ==> |w.pairs| == |ps|
    ensures w.Matched? ==> forall i :: 0 <= i < |ps| ==> w.pairs[i].0 == ps[i].keyword && ps[i].matcher.Accepts(w.pairs[i].1)
    ensures w.Matched? ==> forall i :: 0 <= i < |ps| ==> ps[i].Value(field) == Some(w.pairs[i].1)
  {
    if ps == [] then Matched([])
    else match ps[0].Value(field)
      case None => Missing(ps[0].keyword)
      case Some(v) =>
        if !ps[0].matcher.Accepts(v) then Mismatched
        else match WalkField(ps[1..], field)
          case Matched(pairs) => Matched([(ps[0].keyword, v)] + pairs)
          case stop => stop
  }

  /** What a walk decides is what its first undecided predicate decides: it gets
      through exactly when every predicate has a value that it takes. */
  lemma {:induction false} WalkFieldThrough(ps: seq<Predicate>, field: Dict)
    ensures WalkField(ps, field).Matched? <==>
            forall p :: p in ps ==> p.Value(field).Some? && p.matcher.Accepts(p.Value(field).value)
  {
    if ps != [] {
      WalkFieldThrough(ps[1..], field);
      assert ps == [ps[0]] + ps[1..];
    }
  }

  /** A matched walk is the names of its rule in order. */
  lemma {:induction false} WalkNames(ps: seq<Predicate>, field: Dict)
    requires WalkField(ps, field).Matched?
    ensures Names(WalkField(ps, field).pairs) == Keywords(ps)
  {
  }

  /** A rule matches the key that a walk over its own predicates built. */
  lemma {:induction false} RuleMatchesItsKey(rule: Rule, pairs: seq<Pair>)
    requires Distinct(Keywords(rule.predicates))
    requires |pairs| == |rule.predicates|
    requires forall i :: 0 <= i < |pairs| ==>
               pairs[i].0 == rule.predicates[i].keyword && rule.predicates[i].matcher.Accepts(pairs[i].1)
    ensures rule.Match(DictOf(pairs))
  {
    assert Names(pairs) == Keywords(rule.predicates);
    forall p | p in rule.predicates
      ensures p.Match(DictOf(pairs))
    {
      var i :| 0 <= i < |rule.predicates| && rule.predicates[i] == p;
      DictOfLookup(pairs, i);
    }
  }
}
