/** The schema parser in place: it consumes its input character by character, appends to
    strings, sets and lists, and ends on every input with a schema or with an error. */
module SchemaParser {
  import opened Wrappers
  import opened Keys
  import opened Rules
  import opened SchemaText

  class Parser {
    var input: string

    constructor (text: string)
      ensures input == Deliver(text, false)
    {
      input := Deliver(text, false);
    }

    /** `consume`: false where it throws. */
    method Consume(c: char) returns (ok: bool)
      requires c != '\0'
      modifies this
      ensures ok <==> Peek(old(input)) == c
      ensures input == if ok then old(input)[1..] else old(input)
    {
      ok := Peek(input) == c;
      if ok {
        input := input[1..];
      }
    }

    method ParseIdent(value: bool, emptyOK: bool) returns (ok: bool, s: string)
      modifies this
      ensures Ident(value, emptyOK, old(input)) == if ok then Done(s, input) else Fail
    {
      ghost var start := input;
      s := "";
      while true
        invariant start == s + input
        invariant Span(value, start) == |s| + Span(value, input)
        invariant s != "" ==> !Stops(Peek(start)) && (Peek(start) == '-' ==> value && emptyOK)
        decreases |input|
      {
        var c := Peek(input);
        if Stops(c) {
          if s == "" && !emptyOK {
            return false, s;
          }
          return true, s;
        }
        if c == '-' {
          if s == "" && !emptyOK {
            return false, s;
          }
          if !value {
            return true, s;
          }
        }
        input := input[1..];
        s := s + [c];
      }
    }

    /** The loop over the values of a predicate. */
    method ParseValues() returns (ok: bool, values: seq<string>)
      modifies this
      ensures ScanValues([], old(input)) == if ok then Done(values, input) else Fail
    {
      hide Ident, Insert;
      values := [];
      var v: string;
      ok, v := ParseIdent(true, false);
      if !ok {
        return;
      }
      values := Insert(values, v);
      while Peek(input) == '/'
        invariant ScanValues([], old(input)) ==
                  if Peek(input) == '/' then ScanValues(values, input[1..]) else Done(values, input)
        decreases |input|
      {
        ok := Consume('/');
        ok, v := ParseIdent(true, false);
        if !ok {
          return;
        }
        values := Insert(values, v);
      }
    }

    method ParsePredicate(types: Types) returns (ok: bool, p: Predicate, types': Types)
      modifies this
      ensures ScanPredicate(types, old(input)) == if ok then Done((p, types'), input) else Fail
    {
      hide Ident, ScanValues, Stops;
      p, types' := Predicate("", MatchAlways), types;
      var k: string;
      ok, k := ParseIdent(false, false);
      if !ok {
        return;
      }
      if Peek(input) == ':' {
        ok := Consume(':');
        if k in types {
          return false, p, types';
        }
        var t: string;
        ok, t := ParseIdent(false, false);
        if !ok {
          return;
        }
        types' := types[k := t];
      }
      var c := Peek(input);
      if c == '?' {
        ok := Consume('?');
        var def: string;
        ok, def := ParseIdent(true, true);
        p := Predicate(k, MatchOptional(def));
        return;
      }
      if c == '-' {
        ok := Consume('-');
        if k !in types' {
          types' := types'[k := "Ignore"];
        }
        var def: string;
        ok, def := ParseIdent(true, true);
        p := Predicate(k, MatchHidden(def));
        return;
      }
      var values: seq<string> := [];
      if c != ',' && c != '[' && c != ']' {
        ok := Consume('=');
        if !ok {
          return;
        }
        ok, values := ParseValues();
        if !ok {
          return;
        }
      }
      p := Predicate(k, MatcherOf(values));
    }

    /** The predicates of `parseRule`, from the one at hand to the last comma. */
    method ParsePredicates(before: seq<Predicate>, types: Types) returns (ok: bool, ps: seq<Predicate>, types': Types)
      modifies this
      ensures ScanPredicates(before, types, old(input)) == if ok then Done((ps, types'), input) else Fail
    {
      hide ScanPredicate;
      ps, types' := before, types;
      var p: Predicate;
      ok, p, types' := ParsePredicate(types');
      if !ok {
        return;
      }
      ps := ps + [p];
      while Peek(input) == ','
        invariant ScanPredicates(before, types, old(input)) ==
                  if Peek(input) == ',' then ScanPredicates(ps, types', input[1..]) else Done((ps, types'), input)
        invariant |input| < |old(input)|
        decreases |input|
      {
        ok := Consume(',');
        ok, p, types' := ParsePredicate(types');
        if !ok {
          return;
        }
        ps := ps + [p];
      }
    }

    method ParseRule() returns (ok: bool, rule: Rule)
      modifies this
      ensures ScanRule(old(input)) == if ok then Done(rule, input) else Fail
      decreases |input|, 0
    {
      hide ScanPredicates, ScanRules;
      rule := Rule([], [], map[]);
      ok := Consume('[');
      if !ok {
        return;
      }
      if Peek(input) == ']' {
        ok := Consume(']');
        return;
      }
      var ps: seq<Predicate>, rules: seq<Rule>, types: Types := [], [], map[];
      while true
        invariant |input| < |old(input)|
        invariant ScanRule(old(input)) == ScanBody(ps, rules, types, input)
        decreases |input|
      {
        if Peek(input) == '[' {
          ok, rules := ParseRules(rules);
        } else {
          ok, ps, types := ParsePredicates(ps, types);
        }
        if !ok {
          return;
        }
        if Peek(input) == ']' {
          ok := Consume(']');
          rule := Rule(ps, rules, types);
          return;
        }
      }
    }

    /** Rules, as long as a bracket opens. */
    method ParseRules(before: seq<Rule>) returns (ok: bool, rules: seq<Rule>)
      modifies this
      ensures ScanRules(before, old(input)) == if ok then Done(rules, input) else Fail
      decreases |input|, 1
    {
      hide ScanRule;
      ok, rules := true, before;
      while Peek(input) == '['
        invariant |input| <= |old(input)| && ok
        invariant ScanRules(before, old(input)) == ScanRules(rules, input)
        decreases |input|
      {
        var rule: Rule;
        ok, rule := ParseRule();
        if !ok {
          return;
        }
        rules := rules + [rule];
      }
    }

    method ParseTypes() returns (ok: bool, types: Types)
      modifies this
      ensures ScanTypes(map[], old(input)) == if ok then Done(types, input) else Fail
    {
      hide Ident;
      types := map[];
      while true
        invariant ScanTypes(map[], old(input)) == ScanTypes(types, input)
        decreases |input|
      {
        var name: string, t: string;
        ok, name := ParseIdent(false, true);
        if !ok || name == "" {
          return;
        }
        ok := Consume(':');
        if !ok {
          return;
        }
        ok, t := ParseIdent(false, false);
        if !ok {
          return;
        }
        ok := Consume(';');
        if !ok || name in types {
          return false, types;
        }
        types := types[name := t];
      }
    }

    /** `parse`: a schema, or nothing where it throws. */
    method ParseSchema() returns (r: Option<Schema>)
      modifies this
      ensures r == Parse(old(input))
    {
      hide ScanTypes, ScanRules;
      var ok, types := ParseTypes();
      if !ok {
        return None;
      }
      var rules: seq<Rule>;
      ok, rules := ParseRules([]);
      if !ok {
        return None;
      }
      r := if Peek(input) == '\0' then Some(Schema(types, rules)) else None;
    }
  }
}
