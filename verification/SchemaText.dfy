/** The schema's textual form: what the stream delivers of a text, the grammar of the parser
    as functions on the input that is left, the printer, and how the two undo each other. */
module SchemaText {
  import opened Wrappers
  import opened Keys
  import opened Rules

  // ----- The stream -----

  predicate IsBlank(c: char)
  {
    c == ' ' || ('\t' <= c <= '\r')
  }

  /** What the stream never delivers: blanks, and what begins a comment. */
  predicate Drops(c: char)
  {
    IsBlank(c) || c == '#'
  }

  /** The characters of a text that reach the parser: no blanks, and nothing from a '#' to
      the end of its line. */
  function Deliver(s: string, comment: bool): (r: string)
    ensures Delivered(r)
  {
    if s == "" then ""
    else if comment then Deliver(s[1..], s[0] != '\n')
    else if s[0] == '#' then Deliver(s[1..], true)
    else if IsBlank(s[0]) then Deliver(s[1..], false)
    else [s[0]] + Deliver(s[1..], false)
  }

  predicate Delivered(s: string)
  {
    forall c :: c in s ==> !Drops(c)
  }

  lemma {:induction false} DeliverPlain(a: string, b: string)
    requires Delivered(a)
    ensures Deliver(a + b, false) == a + Deliver(b, false)
  {
    if a == "" {
      assert a + b == b;
    } else {
      assert a[0] in a && (a + b)[1..] == a[1..] + b;
      DeliverPlain(a[1..], b);
    }
  }

  lemma {:induction false} DeliverLine(a: string, b: string)
    requires Delivered(a)
    ensures Deliver(a + "\n" + b, false) == a + Deliver(b, false)
  {
    assert a + "\n" + b == a + ("\n" + b) && ("\n" + b)[1..] == b;
    DeliverPlain(a, "\n" + b);
  }

  lemma {:induction false} DeliveredParts(a: string, b: string)
    ensures Delivered(a + b) <==> Delivered(a) && Delivered(b)
  {
    if Delivered(a + b) {
      assert forall c :: c in a || c in b ==> c in a + b;
    }
  }

  // ----- Identifiers -----

  /** A value with the input that is left after it, or the parser's exception. */
  datatype Scan<+T> = Fail | Done(value: T, rest: string)

  /** The characters that end every identifier; the end of the input reads as the null
      character, and a null character in the input as its end. */
  predicate Stops(c: char)
  {
    c == '\0' || c == '/' || c == '=' || c == ',' || c == ';' || c == ':' || c == '[' || c == ']' || c == '?'
  }

  function Peek(s: string): char
  {
    if s == "" then '\0' else s[0]
  }

  /** How far an identifier reaches: a '-' belongs to it only where values are read. */
  function Span(value: bool, s: string): (n: nat)
    ensures n <= |s|
  {
    if s == "" || Stops(s[0]) || (s[0] == '-' && !value) then 0 else 1 + Span(value, s[1..])
  }

  /** `parseIdent`: where it must not be empty, it must not begin with '-' either. */
  function Ident(value: bool, emptyOK: bool, s: string): (r: Scan<string>)
    ensures r.Done? ==> |r.value| + |r.rest| == |s| && (!emptyOK ==> r.value != "")
  {
    if !emptyOK && (Stops(Peek(s)) || Peek(s) == '-') then Fail
    else Done(s[..Span(value, s)], s[Span(value, s)..])
  }

  /** Keywords and type names. */
  predicate IsName(s: string)
  {
    s != "" && forall c :: c in s ==> !Stops(c) && !Drops(c) && c != '-'
  }

  /** The values of a predicate. */
  predicate IsValue(s: string)
  {
    s != "" && s[0] != '-' && forall c :: c in s ==> !Stops(c) && !Drops(c)
  }

  /** Defaults, which may be empty and may begin with '-'. */
  predicate IsDefault(s: string)
  {
    forall c :: c in s ==> !Stops(c) && !Drops(c)
  }

  lemma {:induction false} SpanOfWord(value: bool, word: string, rest: string)
    requires forall c :: c in word ==> !Stops(c) && (value || c != '-')
    requires Stops(Peek(rest)) || (Peek(rest) == '-' && !value)
    ensures Span(value, word + rest) == |word|
  {
    if word == "" {
      assert word + rest == rest;
    } else {
      assert (word + rest)[1..] == word[1..] + rest && word[0] in word;
      SpanOfWord(value, word[1..], rest);
    }
  }

  lemma {:induction false} SpanIsPlain(value: bool, s: string)
    ensures forall c :: c in s[..Span(value, s)] ==> !Stops(c) && (value || c != '-')
  {
    if Span(value, s) > 0 {
      SpanIsPlain(value, s[1..]);
      assert s[..Span(value, s)] == [s[0]] + s[1..][..Span(value, s[1..])];
    }
  }

  lemma {:induction false} IdentReads(value: bool, emptyOK: bool, word: string, rest: string)
    requires if emptyOK then value && IsDefault(word) else if value then IsValue(word) else IsName(word)
    requires Stops(Peek(rest)) || (Peek(rest) == '-' && !value)
    ensures Ident(value, emptyOK, word + rest) == Done(word, rest)
  {
    SpanOfWord(value, word, rest);
    if !emptyOK {
      assert (word + rest)[0] == word[0] && word[0] in word;
    }
  }

  lemma {:induction false} IdentIsWord(value: bool, emptyOK: bool, s: string)
    requires Ident(value, emptyOK, s).Done? && Delivered(s)
    ensures Delivered(Ident(value, emptyOK, s).rest)
    ensures var word := Ident(value, emptyOK, s).value;
            if emptyOK then IsDefault(word) && (!value && word != "" ==> IsName(word)) else if value then IsValue(word) else IsName(word)
  {
    SpanIsPlain(value, s);
  }

  // ----- The ordered set of values -----

  /** The order of `std::string`. */
  predicate Less(a: string, b: string)
  {
    if b == "" then false
    else if a == "" then true
    else a[0] < b[0] || (a[0] == b[0] && Less(a[1..], b[1..]))
  }

  lemma {:induction false} LessIsStrict(a: string, b: string)
    requires Less(a, b)
    ensures a != b && !Less(b, a)
  {
    if a != "" && a[0] == b[0] {
      LessIsStrict(a[1..], b[1..]);
    }
  }

  lemma {:induction false} LessIsTotal(a: string, b: string)
    ensures a == b || Less(a, b) || Less(b, a)
  {
    if a != "" && b != "" && a[0] == b[0] {
      LessIsTotal(a[1..], b[1..]);
      assert a == [a[0]] + a[1..] && b == [b[0]] + b[1..];
    }
  }

  lemma {:induction false} LessIsTransitive(a: string, b: string, c: string)
    requires Less(a, b) && Less(b, c)
    ensures Less(a, c)
  {
    if a != "" && a[0] == b[0] == c[0] {
      LessIsTransitive(a[1..], b[1..], c[1..]);
    }
  }

  predicate Ascending(vs: seq<string>)
  {
    forall i, j :: 0 <= i < j < |vs| ==> Less(vs[i], vs[j])
  }

  /** `std::set::insert`. */
  function Insert(vs: seq<string>, v: string): seq<string>
  {
    if vs == [] || Less(v, vs[0]) then [v] + vs
    else if v == vs[0] then vs
    else [vs[0]] + Insert(vs[1..], v)
  }

  /** Insertion keeps the order and adds just the value. */
  lemma {:induction false} InsertAscends(vs: seq<string>, v: string)
    requires Ascending(vs)
    ensures Ascending(Insert(vs, v)) && Insert(vs, v) != []
    ensures forall x :: x in Insert(vs, v) <==> x in vs || x == v
  {
    if vs == [] {
    } else if Less(v, vs[0]) {
      forall i | 0 <= i < |vs|
        ensures Less(v, vs[i])
      {
        if i > 0 { LessIsTransitive(v, vs[0], vs[i]); }
      }
    } else if v != vs[0] {
      LessIsTotal(v, vs[0]);
      InsertAscends(vs[1..], v);
      var rest := Insert(vs[1..], v);
      forall i | 0 <= i < |rest|
        ensures Less(vs[0], rest[i])
      {
        assert rest[i] in rest;
        if rest[i] in vs[1..] {
          var j :| 0 <= j < |vs[1..]| && vs[1..][j] == rest[i];
          assert vs[1 + j] == rest[i];
        }
      }
      assert vs == [vs[0]] + vs[1..];
    }
  }

  /** A value above all others goes to the end. */
  lemma {:induction false} InsertLast(vs: seq<string>, v: string)
    requires forall x :: x in vs ==> Less(x, v)
    ensures Insert(vs, v) == vs + [v]
  {
    if vs != [] {
      LessIsStrict(vs[0], v);
      InsertLast(vs[1..], v);
      assert vs == [vs[0]] + vs[1..];
    }
  }

  // ----- The grammar -----

  /** The values after the '=' of a predicate. */
  function ScanValues(vs: seq<string>, s: string): (r: Scan<seq<string>>)
    ensures r.Done? ==> |r.rest| < |s|
    decreases |s|
  {
    match Ident(true, false, s)
    case Fail => Fail
    case Done(v, rest) =>
      if Peek(rest) == '/' then ScanValues(Insert(vs, v), rest[1..]) else Done(Insert(vs, v), rest)
  }

  /** The optional type after a keyword. */
  function ScanType(k: string, types: Types, s: string): (r: Scan<Types>)
    ensures r.Done? ==> |r.rest| <= |s|
  {
    if Peek(s) != ':' then Done(types, s)
    else if k in types then Fail
    else match Ident(false, false, s[1..])
      case Fail => Fail
      case Done(t, rest) => Done(types[k := t], rest)
  }

  function MatcherOf(vs: seq<string>): Matcher
  {
    if |vs| == 0 then MatchAlways else if |vs| == 1 then MatchValue(vs[0]) else MatchAny(vs)
  }

  /** What follows a keyword and its type. */
  function ScanMatcher(k: string, types: Types, s: string): (r: Scan<(Predicate, Types)>)
    ensures r.Done? ==> |r.rest| <= |s|
  {
    var c := Peek(s);
    if c == '?' then
      match Ident(true, true, s[1..])
      case Fail => Fail
      case Done(def, rest) => Done((Predicate(k, MatchOptional(def)), types), rest)
    else if c == '-' then
      match Ident(true, true, s[1..])
      case Fail => Fail
      case Done(def, rest) => Done((Predicate(k, MatchHidden(def)), if k in types then types else types[k := "Ignore"]), rest)
    else if c == ',' || c == '[' || c == ']' then Done((Predicate(k, MatchAlways), types), s)
    else if c != '=' then Fail
    else match ScanValues([], s[1..])
      case Fail => Fail
      case Done(vs, rest) => Done((Predicate(k, MatcherOf(vs)), types), rest)
  }

  /** `parsePredicate`. */
  function ScanPredicate(types: Types, s: string): (r: Scan<(Predicate, Types)>)
    ensures r.Done? ==> |r.rest| < |s|
  {
    match Ident(false, false, s)
    case Fail => Fail
    case Done(k, s1) =>
      match ScanType(k, types, s1)
      case Fail => Fail
      case Done(types1, s2) => ScanMatcher(k, types1, s2)
  }

  /** Predicates separated by commas. */
  function ScanPredicates(ps: seq<Predicate>, types: Types, s: string): (r: Scan<(seq<Predicate>, Types)>)
    ensures r.Done? ==> |r.rest| < |s|
    decreases |s|
  {
    match ScanPredicate(types, s)
    case Fail => Fail
    case Done(p, rest) =>
      if Peek(rest) == ',' then ScanPredicates(ps + [p.0], p.1, rest[1..]) else Done((ps + [p.0], p.1), rest)
  }

  /** `parseRule`. */
  function ScanRule(s: string): (r: Scan<Rule>)
    ensures r.Done? ==> |r.rest| < |s|
    decreases |s|, 0
  {
    if Peek(s) != '[' then Fail
    else if Peek(s[1..]) == ']' then Done(Rule([], [], map[]), s[2..])
    else ScanBody([], [], map[], s[1..])
  }

  /** The loop of `parseRule`: runs of predicates and of rules, until the bracket closes. */
  function ScanBody(ps: seq<Predicate>, rules: seq<Rule>, types: Types, s: string): (r: Scan<Rule>)
    ensures r.Done? ==> |r.rest| < |s|
    decreases |s|, 2
  {
    if Peek(s) == '[' then
      match ScanRules(rules, s)
      case Fail => Fail
      case Done(rules', rest) =>
        if Peek(rest) == ']' then Done(Rule(ps, rules', types), rest[1..])
        else ScanBody(ps, rules', types, rest)
    else
      match ScanPredicates(ps, types, s)
      case Fail => Fail
      case Done(p, rest) =>
        if Peek(rest) == ']' then Done(Rule(p.0, rules, p.1), rest[1..]) else ScanBody(p.0, rules, p.1, rest)
  }

  /** Rules, as long as a bracket opens. */
  function ScanRules(rules: seq<Rule>, s: string): (r: Scan<seq<Rule>>)
    ensures r.Done? ==> |r.rest| <= |s| && (Peek(s) == '[' ==> |r.rest| < |s|)
    decreases |s|, 1
  {
    if Peek(s) != '[' then Done(rules, s)
    else match ScanRule(s)
      case Fail => Fail
      case Done(rule, rest) => ScanRules(rules + [rule], rest)
  }

  /** `parseTypes`. */
  function ScanTypes(types: Types, s: string): (r: Scan<Types>)
    ensures r.Done? ==> |r.rest| <= |s|
    decreases |s|
  {
    match Ident(false, true, s)
    case Fail => Fail
    case Done(name, s1) =>
      if name == "" then Done(types, s1)
      else if Peek(s1) != ':' then Fail
      else match Ident(false, false, s1[1..])
        case Fail => Fail
        case Done(t, s2) =>
          if Peek(s2) != ';' || name in types then Fail else ScanTypes(types[name := t], s2[1..])
  }

  /** `parse`, on what the stream delivers. */
  function Parse(s: string): Option<Schema>
  {
    match ScanTypes(map[], s)
    case Fail => None
    case Done(types, s1) =>
      match ScanRules([], s1)
      case Fail => None
      case Done(rules, rest) => if Peek(rest) == '\0' then Some(Schema(types, rules)) else None
  }

  // ----- The printer -----

  /** `TypesRegistry::dump` of one keyword. */
  function PrintKeyword(k: string, types: Types): string
  {
    k + if k in types then ":" + types[k] else ""
  }

  function PrintValues(vs: seq<string>): string
  {
    if vs == [] then "" else if |vs| == 1 then vs[0] else vs[0] + "/" + PrintValues(vs[1..])
  }

  /** `dump` of the five matchers, after the keyword. */
  function PrintMatcher(m: Matcher): string
  {
    match m
    case MatchAlways => ""
    case MatchValue(value) => "=" + value
    case MatchAny(values) => "=" + PrintValues(values)
    case MatchOptional(def) => "?" + def
    case MatchHidden(def) => "-" + def
  }

  function PrintPredicates(ps: seq<Predicate>, types: Types): string
  {
    if ps == [] then ""
    else PrintKeyword(ps[0].keyword, types) + PrintMatcher(ps[0].matcher)
         + if |ps| == 1 then "" else "," + PrintPredicates(ps[1..], types)
  }

  /** `Rule::dump`. */
  function PrintRule(rule: Rule): string
    decreases rule, 0
  {
    "[" + PrintPredicates(rule.predicates, rule.types) + PrintRules(rule.rules) + "]"
  }

  function PrintRules(rules: seq<Rule>): string
    decreases rules, 1
  {
    if rules == [] then "" else PrintRule(rules[0]) + PrintRules(rules[1..])
  }

  /** `TypesRegistry::dump`: the declarations, in the order of their names. */
  function PrintTypes(types: Types, names: seq<string>): string
    requires forall name :: name in names ==> name in types
  {
    if names == [] then "" else names[0] + ":" + types[names[0]] + ";" + PrintTypes(types, names[1..])
  }

  /** The same without line ends. */
  function Print(schema: Schema, names: seq<string>): string
    requires forall name :: name in names ==> name in schema.types
  {
    PrintTypes(schema.types, names) + PrintRules(schema.rules)
  }

  function WriteTypes(types: Types, names: seq<string>): string
    requires forall name :: name in names ==> name in types
  {
    if names == [] then "" else names[0] + ":" + types[names[0]] + ";" + "\n" + WriteTypes(types, names[1..])
  }

  function WriteRules(rules: seq<Rule>): string
  {
    if rules == [] then "" else PrintRule(rules[0]) + "\n" + WriteRules(rules[1..])
  }

  /** `Schema::dump`, with its line ends. */
  function Write(schema: Schema, names: seq<string>): string
    requires forall name :: name in names ==> name in schema.types
  {
    WriteTypes(schema.types, names) + WriteRules(schema.rules)
  }

  /** Reading a text. */
  function Read(text: string): Option<Schema>
  {
    Parse(Deliver(text, false))
  }

  // ----- What the parser builds, and what prints to a text that it reads -----

  predicate ShapedMatcher(m: Matcher)
  {
    match m
    case MatchAlways => true
    case MatchValue(value) => IsValue(value)
    case MatchAny(values) => |values| > 1 && Ascending(values) && forall v :: v in values ==> IsValue(v)
    case MatchOptional(def) => IsDefault(def)
    case MatchHidden(def) => IsDefault(def)
  }

  predicate ShapedTypes(types: Types)
  {
    forall k :: k in types ==> IsName(k) && IsName(types[k])
  }

  predicate ShapedPredicates(ps: seq<Predicate>, types: Types)
  {
    forall p :: p in ps ==> IsName(p.keyword) && ShapedMatcher(p.matcher) && (p.matcher.MatchHidden? ==> p.keyword in types)
  }

  /** Every word is one the parser reads, types are declared at predicates of the rule
      itself, and a hidden keyword has a type. */
  predicate ShapedRule(rule: Rule)
  {
    && ShapedPredicates(rule.predicates, rule.types) && ShapedTypes(rule.types)
    && rule.types.Keys <= KeywordSet(rule.predicates)
    && forall r :: r in rule.rules ==> ShapedRule(r)
  }

  predicate Shaped(schema: Schema)
  {
    ShapedTypes(schema.types) && forall r :: r in schema.rules ==> ShapedRule(r)
  }

  /** No keyword that a rule types occurs at two of its predicates. */
  predicate TypedOnce(ps: seq<Predicate>, types: Types)
  {
    forall i, j :: 0 <= i < j < |ps| && ps[i].keyword in types ==> ps[i].keyword != ps[j].keyword
  }

  predicate RuleTypedOnce(rule: Rule)
  {
    TypedOnce(rule.predicates, rule.types) && forall r :: r in rule.rules ==> RuleTypedOnce(r)
  }

  predicate AllTypedOnce(rules: seq<Rule>)
  {
    forall r :: r in rules ==> RuleTypedOnce(r)
  }

  // ----- Reading back what was printed -----

  lemma {:induction false} ReadValues(done: seq<string>, vs: seq<string>, rest: string)
    requires vs != [] && Ascending(done + vs) && forall v :: v in vs ==> IsValue(v)
    requires Peek(rest) == ',' || Peek(rest) == '[' || Peek(rest) == ']'
    ensures ScanValues(done, PrintValues(vs) + rest) == Done(done + vs, rest)
    decreases |vs|
  {
    hide Ident, IsValue, Less, Stops;
    var v := vs[0];
    assert Stops(',') && Stops('[') && Stops(']') && Stops('/') by { StopChars(); }
    forall x | x in done
      ensures Less(x, v)
    {
      var i :| 0 <= i < |done| && done[i] == x;
      assert (done + vs)[i] == x && (done + vs)[|done|] == v;
    }
    InsertLast(done, v);
    if |vs| == 1 {
      assert vs == [v];
      IdentReads(true, false, v, rest);
    } else {
      var more := "/" + PrintValues(vs[1..]) + rest;
      assert PrintValues(vs) + rest == v + more;
      IdentReads(true, false, v, more);
      assert more[1..] == PrintValues(vs[1..]) + rest;
      assert (done + [v]) + vs[1..] == done + vs;
      ReadValues(done + [v], vs[1..], rest);
    }
  }

  lemma {:induction false} StopChars()
    ensures Stops(',') && Stops('[') && Stops(']') && Stops('/') && Stops(':') && Stops('?') && Stops('=') && Stops(';') && Stops('\0')
    ensures !Stops('-')
  {
  }

  lemma {:induction false} ReadMatcher(p: Predicate, types: Types, rest: string)
    requires ShapedMatcher(p.matcher) && (p.matcher.MatchHidden? ==> p.keyword in types)
    requires Peek(rest) == ',' || Peek(rest) == '[' || Peek(rest) == ']'
    ensures ScanMatcher(p.keyword, types, PrintMatcher(p.matcher) + rest) == Done((p, types), rest)
  {
    hide Ident, IsValue, Less, ScanValues, PrintValues;
    StopChars();
    match p.matcher
    case MatchAlways =>
      assert "" + rest == rest;
    case MatchValue(value) =>
      assert ("=" + value + rest)[1..] == value + rest;
      ReadValues([], [value], rest);
      assert PrintValues([value]) == value by { OneValue(value); }
    case MatchAny(values) =>
      assert ("=" + PrintValues(values) + rest)[1..] == PrintValues(values) + rest;
      assert [] + values == values;
      ReadValues([], values, rest);
    case MatchOptional(def) =>
      assert ("?" + def + rest)[1..] == def + rest;
      IdentReads(true, true, def, rest);
    case MatchHidden(def) =>
      assert ("-" + def + rest)[1..] == def + rest;
      IdentReads(true, true, def, rest);
  }

  lemma {:induction false} OneValue(v: string)
    ensures PrintValues([v]) == v
  {
  }

  function Restrict(types: Types, ps: seq<Predicate>): Types
  {
    map k | k in types && k in KeywordSet(ps) :: types[k]
  }

  /** What follows a keyword in a printed rule. */
  lemma {:induction false} MatcherBegins(m: Matcher, rest: string)
    requires Peek(rest) == ',' || Peek(rest) == '[' || Peek(rest) == ']'
    ensures var c := Peek(PrintMatcher(m) + rest); (Stops(c) || c == '-') && c != ':'
  {
  }

  /** A printed predicate is read back, unless its keyword has been typed already. */
  lemma {:induction false} ReadPredicate(p: Predicate, types: Types, acc: Types, rest: string)
    requires IsName(p.keyword) && ShapedMatcher(p.matcher) && (p.matcher.MatchHidden? ==> p.keyword in types)
    requires ShapedTypes(types) && (p.keyword !in types ==> p.keyword !in acc)
    requires Peek(rest) == ',' || Peek(rest) == '[' || Peek(rest) == ']'
    ensures var k := p.keyword;
            ScanPredicate(acc, PrintKeyword(k, types) + PrintMatcher(p.matcher) + rest) ==
            if k !in types then Done((p, acc), rest)
            else if k in acc then Fail
            else Done((p, acc[k := types[k]]), rest)
  {
    hide Ident, IsName, ScanMatcher, PrintMatcher, ShapedMatcher, Stops;
    StopChars();
    var k, tail := p.keyword, PrintMatcher(p.matcher) + rest;
    MatcherBegins(p.matcher, rest);
    if k !in types {
      assert PrintKeyword(k, types) + PrintMatcher(p.matcher) + rest == k + tail;
      IdentReads(false, false, k, tail);
      ReadMatcher(p, acc, rest);
    } else {
      var typed := ":" + types[k] + tail;
      assert PrintKeyword(k, types) + PrintMatcher(p.matcher) + rest == k + typed;
      IdentReads(false, false, k, typed);
      assert typed[1..] == types[k] + tail;
      IdentReads(false, false, types[k], tail);
      if k !in acc {
        ReadMatcher(p, acc[k := types[k]], rest);
      }
    }
  }

  /** Printed predicates are read back exactly when no typed keyword occurs twice. */
  lemma {:induction false} ReadPredicates(done: seq<Predicate>, ps: seq<Predicate>, types: Types, rest: string)
    requires ps != [] && ShapedPredicates(ps, types) && ShapedTypes(types) && TypedOnce(done, types)
    requires Peek(rest) == '[' || Peek(rest) == ']'
    ensures ScanPredicates(done, Restrict(types, done), PrintPredicates(ps, types) + rest) ==
            if TypedOnce(done + ps, types) then Done((done + ps, Restrict(types, done + ps)), rest) else Fail
    decreases |ps|
  {
    hide ScanPredicate, PrintKeyword, PrintMatcher, IsName, ShapedMatcher, ShapedTypes, Restrict, TypedOnce;
    var p, acc := ps[0], Restrict(types, done);
    var head := PrintKeyword(p.keyword, types) + PrintMatcher(p.matcher);
    var more := if |ps| == 1 then rest else "," + PrintPredicates(ps[1..], types) + rest;
    PrintStep(ps, types, rest);
    RestrictStep(types, done, p);
    ReadPredicate(p, types, acc, more);
    TypedStep(done, p, ps[1..], types);
    SplitFirst(done, ps);
    if |ps| == 1 {
      assert ps == [p];
    } else if TypedOnce(done + [p], types) {
      ReadPredicates(done + [p], ps[1..], types, rest);
    }
  }

  /** The first of some printed predicates, and what follows it. */
  lemma {:induction false} PrintStep(ps: seq<Predicate>, types: Types, rest: string)
    requires ps != []
    ensures var more := if |ps| == 1 then rest else "," + PrintPredicates(ps[1..], types) + rest;
            && PrintPredicates(ps, types) + rest == PrintKeyword(ps[0].keyword, types) + PrintMatcher(ps[0].matcher) + more
            && (|ps| > 1 ==> more != "" && more[0] == ',' && more[1..] == PrintPredicates(ps[1..], types) + rest)
  {
    hide PrintKeyword, PrintMatcher;
    var head := PrintKeyword(ps[0].keyword, types) + PrintMatcher(ps[0].matcher);
    if |ps| == 1 {
      assert head + "" == head;
    } else {
      var tail := PrintPredicates(ps[1..], types);
      assert head + ("," + tail) + rest == head + ("," + tail + rest);
      assert ("," + tail + rest)[1..] == tail + rest;
    }
  }

  lemma {:induction false} SplitFirst<T>(done: seq<T>, ps: seq<T>)
    requires ps != []
    ensures (done + [ps[0]]) + ps[1..] == done + ps
  {
  }

  lemma {:induction false} RestrictStep(types: Types, done: seq<Predicate>, p: Predicate)
    ensures var acc, k := Restrict(types, done), p.keyword;
            && (k in acc <==> k in types && k in KeywordSet(done))
            && Restrict(types, done + [p]) == if k in types then acc[k := types[k]] else acc
  {
    assert Keywords(done + [p]) == Keywords(done) + [p.keyword];
  }

  lemma {:induction false} TypedStep(done: seq<Predicate>, p: Predicate, more: seq<Predicate>, types: Types)
    requires TypedOnce(done, types)
    ensures TypedOnce(done + [p], types) <==> !(p.keyword in types && p.keyword in KeywordSet(done))
    ensures TypedOnce(done + [p] + more, types) ==> TypedOnce(done + [p], types)
  {
    var ps := done + [p];
    if p.keyword in types && p.keyword in KeywordSet(done) {
      var i :| 0 <= i < |Keywords(done)| && Keywords(done)[i] == p.keyword;
      assert ps[i].keyword == ps[|done|].keyword;
    } else {
      forall i, j | 0 <= i < j < |ps| && ps[i].keyword in types
        ensures ps[i].keyword != ps[j].keyword
      {
        if j == |done| {
          assert Keywords(done)[i] == ps[i].keyword;
        }
      }
    }
    if TypedOnce(ps + more, types) {
      forall i, j | 0 <= i < j < |ps| && ps[i].keyword in types
        ensures ps[i].keyword != ps[j].keyword
      {
        assert (ps + more)[i] == ps[i] && (ps + more)[j] == ps[j];
      }
    }
  }

  lemma {:induction false} RestrictAll(types: Types, ps: seq<Predicate>)
    requires types.Keys <= KeywordSet(ps)
    ensures Restrict(types, ps) == types
  {
  }

  lemma {:induction false} PrintedBegins(ps: seq<Predicate>, types: Types, rest: string)
    requires ps != [] && ShapedPredicates(ps, types)
    ensures var c := Peek(PrintPredicates(ps, types) + rest); !Stops(c) && c != '-'
  {
    assert IsName(ps[0].keyword);
    assert ps[0].keyword[0] in ps[0].keyword;
  }

  /** A printed rule is read back exactly when it types no keyword twice, here or below. */
  lemma {:induction false} ReadRule(rule: Rule, rest: string)
    requires ShapedRule(rule)
    ensures ScanRule(PrintRule(rule) + rest) == if RuleTypedOnce(rule) then Done(rule, rest) else Fail
    decreases rule, |rule.rules| + 1
  {
    hide ScanPredicates, PrintPredicates, ScanRules, PrintRules, Stops, TypedOnce, ShapedPredicates, ShapedTypes, Restrict;
    StopChars();
    var ps, types, end := rule.predicates, rule.types, "]" + rest;
    var inner := PrintRules(rule.rules) + end;
    var body := PrintPredicates(ps, types) + inner;
    var s := PrintRule(rule) + rest;
    assert s == "[" + body && s[1..] == body;
    assert end[1..] == rest;
    RulesBegin(rule.rules, end);
    ReadRules(rule, [], rule.rules, end);
    assert [] + rule.rules == rule.rules;
    if ps == [] {
      NothingPrinted(types);
      NoPredicates(types);
      NoneTyped(types);
      assert body == inner;
      if rule.rules == [] {
        assert s[2..] == rest;
      }
    } else {
      ReadBody(rule, end);
      PrintedBegins(ps, types, inner);
      hide ScanBody;
    }
  }

  /** The loop over the predicates and then the rules of a printed rule. */
  lemma {:induction false} ReadBody(rule: Rule, end: string)
    requires ShapedRule(rule) && rule.predicates != [] && end != "" && end[0] == ']'
    requires ScanRules([], PrintRules(rule.rules) + end) == if AllTypedOnce(rule.rules) then Done(rule.rules, end) else Fail
    ensures ScanBody([], [], map[], PrintPredicates(rule.predicates, rule.types) + (PrintRules(rule.rules) + end)) ==
            if RuleTypedOnce(rule) then Done(rule, end[1..]) else Fail
  {
    hide ScanPredicates, PrintPredicates, ScanRules, PrintRules, Stops, TypedOnce, ShapedPredicates, ShapedTypes, Restrict;
    StopChars();
    var ps, types, inner := rule.predicates, rule.types, PrintRules(rule.rules) + end;
    RulesBegin(rule.rules, end);
    PrintedBegins(ps, types, inner);
    RestrictNone(types);
    NoneTyped(types);
    ReadPredicates([], ps, types, inner);
    assert [] + ps == ps;
    RestrictAll(types, ps);
    if rule.rules != [] && TypedOnce(ps, types) {
      assert ScanBody(ps, [], types, inner) == if AllTypedOnce(rule.rules) then Done(rule, end[1..]) else Fail;
    }
  }

  lemma {:induction false} ReadRules(parent: Rule, done: seq<Rule>, rules: seq<Rule>, rest: string)
    requires forall r :: r in rules ==> r in parent.rules && ShapedRule(r)
    requires Peek(rest) != '['
    ensures ScanRules(done, PrintRules(rules) + rest) == if AllTypedOnce(rules) then Done(done + rules, rest) else Fail
    decreases parent, |rules|
  {
    hide ScanRule, PrintRule, RuleTypedOnce, ShapedRule;
    RulesBegin(rules, rest);
    if rules == [] {
      assert done + [] == done;
    } else {
      var more := PrintRules(rules[1..]) + rest;
      assert PrintRules(rules) + rest == PrintRule(rules[0]) + more;
      assert rules[0] in parent.rules && ShapedRule(rules[0]);
      assert rules == [rules[0]] + rules[1..];
      ReadRule(rules[0], more);
      ReadRules(parent, done + [rules[0]], rules[1..], rest);
      assert (done + [rules[0]]) + rules[1..] == done + rules;
    }
  }

  lemma {:induction false} NoneTyped(types: Types)
    ensures TypedOnce([], types)
  {
  }

  lemma {:induction false} RestrictNone(types: Types)
    ensures Restrict(types, []) == map[]
  {
  }

  lemma {:induction false} NoPredicates(types: Types)
    requires types.Keys <= KeywordSet([])
    ensures types == map[]
  {
  }

  lemma {:induction false} NothingPrinted(types: Types)
    ensures PrintPredicates([], types) == ""
  {
  }

  lemma {:induction false} NoRulesPrinted(rest: string)
    ensures PrintRules([]) + rest == rest
  {
    assert "" + rest == rest;
  }

  lemma {:induction false} RulesBegin(rules: seq<Rule>, rest: string)
    ensures if rules == [] then PrintRules(rules) + rest == rest else Peek(PrintRules(rules) + rest) == '['
  {
    if rules == [] {
      NoRulesPrinted(rest);
    }
  }

  function Sub(types: Types, names: seq<string>): Types
  {
    map k | k in types && k in names :: types[k]
  }

  lemma {:induction false} SubStep(types: Types, done: seq<string>, name: string)
    requires name in types && name !in done
    ensures name !in Sub(types, done) && Sub(types, done)[name := types[name]] == Sub(types, done + [name])
  {
  }

  /** Printed declarations are read back, whatever their order. */
  lemma {:induction false} ReadTypes(types: Types, done: seq<string>, names: seq<string>, rest: string)
    requires ShapedTypes(types) && (forall name :: name in names ==> name in types) && Distinct(names)
    requires forall name :: name in names ==> name !in done
    requires Peek(rest) == '[' || rest == ""
    ensures ScanTypes(Sub(types, done), PrintTypes(types, names) + rest) == Done(Sub(types, done + names), rest)
    decreases |names|
  {
    hide Ident, Sub, Stops;
    StopChars();
    if names == [] {
      assert "" + rest == rest && done + names == done;
      NoIdent(rest);
    } else {
      var name, more := names[0], PrintTypes(types, names[1..]) + rest;
      var typed := types[name] + (";" + more);
      assert PrintTypes(types, names) + rest == name + (":" + typed);
      assert (":" + typed)[1..] == typed && (";" + more)[1..] == more;
      IdentReadsName(name, ":" + typed);
      IdentReads(false, false, types[name], ";" + more);
      SubStep(types, done, name);
      assert (done + [name]) + names[1..] == done + names;
      assert names == [name] + names[1..];
      assert name !in names[1..] by { DistinctHead(names); }
      ReadTypes(types, done + [name], names[1..], rest);
    }
  }

  lemma {:induction false} DistinctHead(names: seq<string>)
    requires Distinct(names) && names != []
    ensures names[0] !in names[1..] && Distinct(names[1..])
  {
  }

  lemma {:induction false} NoIdent(rest: string)
    requires Peek(rest) == '[' || rest == ""
    ensures Ident(false, true, rest) == Done("", rest)
  {
  }

  lemma {:induction false} IdentReadsName(name: string, rest: string)
    requires IsName(name) && Peek(rest) == ':'
    ensures Ident(false, true, name + rest) == Done(name, rest)
  {
    SpanOfWord(false, name, rest);
  }

  predicate Enumerates(names: seq<string>, types: Types)
  {
    Distinct(names) && (forall name :: name in names ==> name in types) && forall name :: name in types ==> name in names
  }

  lemma {:induction false} ParsePrinted(schema: Schema, names: seq<string>)
    requires Shaped(schema) && Enumerates(names, schema.types)
    ensures Parse(Print(schema, names)) == if AllTypedOnce(schema.rules) then Some(schema) else None
  {
    hide ScanTypes, ScanRules, PrintTypes, PrintRules, RuleTypedOnce, ShapedRule, ShapedTypes;
    var printed := PrintRules(schema.rules);
    RulesBegin(schema.rules, "");
    assert printed + "" == printed;
    assert Sub(schema.types, []) == map[] && [] + names == names && Sub(schema.types, names) == schema.types;
    ReadTypes(schema.types, [], names, printed);
    var parent := Rule([], schema.rules, map[]);
    ReadRules(parent, [], schema.rules, "");
    assert [] + schema.rules == schema.rules;
  }


  // ----- What is delivered of a printed schema -----

  lemma {:induction false} ValuesDelivered(vs: seq<string>)
    requires forall v :: v in vs ==> IsValue(v)
    ensures Delivered(PrintValues(vs))
  {
    if vs != [] {
      assert IsValue(vs[0]);
      ValuesDelivered(vs[1..]);
    }
  }

  lemma {:induction false} PredicatesDelivered(ps: seq<Predicate>, types: Types)
    requires ShapedPredicates(ps, types) && ShapedTypes(types)
    ensures Delivered(PrintPredicates(ps, types))
  {
    if ps != [] {
      var p := ps[0];
      assert IsName(p.keyword) && ShapedMatcher(p.matcher);
      assert Delivered(PrintKeyword(p.keyword, types));
      if p.matcher.MatchAny? {
        ValuesDelivered(p.matcher.values);
      }
      assert Delivered(PrintMatcher(p.matcher));
      hide PrintKeyword, PrintMatcher, ShapedMatcher;
      PredicatesDelivered(ps[1..], types);
    }
  }

  lemma {:induction false} RuleDelivered(rule: Rule)
    requires ShapedRule(rule)
    ensures Delivered(PrintRule(rule))
    decreases rule, |rule.rules| + 1
  {
    hide PrintPredicates, ShapedPredicates, ShapedTypes;
    PredicatesDelivered(rule.predicates, rule.types);
    RulesDelivered(rule, rule.rules);
    hide PrintRules;
  }

  lemma {:induction false} RulesDelivered(parent: Rule, rules: seq<Rule>)
    requires forall r :: r in rules ==> r in parent.rules && ShapedRule(r)
    ensures Delivered(PrintRules(rules))
    decreases parent, |rules|
  {
    if rules != [] {
      hide PrintRule, ShapedRule;
      assert rules[0] in rules && rules[0] in parent.rules && ShapedRule(rules[0]);
      RuleDelivered(rules[0]);
      RulesDelivered(parent, rules[1..]);
      DeliveredParts(PrintRule(rules[0]), PrintRules(rules[1..]));
    }
  }

  lemma {:induction false} RulesWritten(rules: seq<Rule>)
    requires forall r :: r in rules ==> ShapedRule(r)
    ensures Deliver(WriteRules(rules), false) == PrintRules(rules)
  {
    if rules != [] {
      hide PrintRule, ShapedRule, Deliver, Delivered;
      assert rules[0] in rules && ShapedRule(rules[0]);
      RuleDelivered(rules[0]);
      RulesWritten(rules[1..]);
      DeliverLine(PrintRule(rules[0]), WriteRules(rules[1..]));
    }
  }

  lemma {:induction false} TypesWritten(types: Types, names: seq<string>, rest: string)
    requires ShapedTypes(types) && forall name :: name in names ==> name in types
    ensures Deliver(WriteTypes(types, names) + rest, false) == PrintTypes(types, names) + Deliver(rest, false)
  {
    hide Deliver;
    if names == [] {
      assert "" + rest == rest && "" + Deliver(rest, false) == Deliver(rest, false);
    } else {
      var line := names[0] + ":" + types[names[0]] + ";";
      assert names[0] in types && IsName(names[0]) && IsName(types[names[0]]);
      assert Delivered(line);
      hide Delivered;
      var more := WriteTypes(types, names[1..]);
      assert WriteTypes(types, names) + rest == line + "\n" + (more + rest);
      DeliverLine(line, more + rest);
      TypesWritten(types, names[1..], rest);
      assert line + (PrintTypes(types, names[1..]) + Deliver(rest, false)) == PrintTypes(types, names) + Deliver(rest, false);
    }
  }

  lemma {:induction false} WrittenIsPrinted(schema: Schema, names: seq<string>)
    requires Shaped(schema) && Enumerates(names, schema.types)
    ensures Deliver(Write(schema, names), false) == Print(schema, names)
  {
    hide Deliver, WriteTypes, WriteRules, ShapedTypes, ShapedRule;
    TypesWritten(schema.types, names, WriteRules(schema.rules));
    RulesWritten(schema.rules);
  }

  /** Reading what was printed gives the schema back exactly when no rule of it types a
      keyword that occurs twice in the rule; otherwise reading fails. */
  lemma {:induction false} RoundTrip(schema: Schema, names: seq<string>)
    requires Shaped(schema) && Enumerates(names, schema.types)
    ensures Read(Write(schema, names)) == if AllTypedOnce(schema.rules) then Some(schema) else None
  {
    hide Parse, Print, Write, Deliver, Shaped;
    WrittenIsPrinted(schema, names);
    ParsePrinted(schema, names);
  }

  // ----- What the parser builds is shaped -----

  lemma {:induction false} ScannedValues(vs: seq<string>, s: string)
    requires Delivered(s)
    requires ScanValues(vs, s).Done? && Ascending(vs) && forall v :: v in vs ==> IsValue(v)
    ensures Delivered(ScanValues(vs, s).rest)
    ensures var r := ScanValues(vs, s).value; r != [] && Ascending(r) && forall v :: v in r ==> IsValue(v)
    decreases |s|
  {
    hide Ident, IsValue, Less, Insert, Ascending;
    IdentIsWord(true, false, s);
    var v, rest := Ident(true, false, s).value, Ident(true, false, s).rest;
    InsertAscends(vs, v);
    if Peek(rest) == '/' {
      ScannedValues(Insert(vs, v), rest[1..]);
    }
  }

  lemma {:induction false} ScannedMatcher(k: string, types: Types, s: string)
    requires Delivered(s)
    requires ScanMatcher(k, types, s).Done? && IsName(k) && ShapedTypes(types)
    ensures Delivered(ScanMatcher(k, types, s).rest)
    ensures var (p, types') := ScanMatcher(k, types, s).value;
            && p.keyword == k && ShapedMatcher(p.matcher) && (p.matcher.MatchHidden? ==> k in types')
            && ShapedTypes(types') && types.Keys <= types'.Keys <= types.Keys + {k}
  {
    hide Ident, IsValue, Less, ScanValues, Ascending, IsName, Stops;
    var c := Peek(s);
    assert IsName("Ignore") by { IgnoreIsName(); }
    if c == '?' || c == '-' {
      IdentIsWord(true, true, s[1..]);
    } else if c == '=' {
      assert Ascending([]) by { NothingAscends(); }
      ScannedValues([], s[1..]);
    }
  }

  lemma {:induction false} NothingAscends()
    ensures Ascending([])
  {
  }

  lemma {:induction false} IgnoreIsName()
    ensures IsName("Ignore")
  {
  }

  lemma {:induction false} ScannedPredicate(types: Types, s: string)
    requires Delivered(s)
    requires ScanPredicate(types, s).Done? && ShapedTypes(types)
    ensures Delivered(ScanPredicate(types, s).rest)
    ensures var (p, types') := ScanPredicate(types, s).value;
            && IsName(p.keyword) && ShapedMatcher(p.matcher) && (p.matcher.MatchHidden? ==> p.keyword in types')
            && ShapedTypes(types') && types.Keys <= types'.Keys <= types.Keys + {p.keyword}
  {
    hide Ident, IsName, ScanMatcher, ShapedMatcher;
    IdentIsWord(false, false, s);
    var k, s1 := Ident(false, false, s).value, Ident(false, false, s).rest;
    if Peek(s1) == ':' {
      IdentIsWord(false, false, s1[1..]);
    }
    var typed := ScanType(k, types, s1);
    ScannedMatcher(k, typed.value, typed.rest);
  }

  lemma {:induction false} ScannedPredicates(ps: seq<Predicate>, types: Types, s: string)
    requires Delivered(s)
    requires ScanPredicates(ps, types, s).Done? && ShapedPredicates(ps, types) && ShapedTypes(types) && types.Keys <= KeywordSet(ps)
    ensures Delivered(ScanPredicates(ps, types, s).rest)
    ensures var (ps', types') := ScanPredicates(ps, types, s).value;
            ShapedPredicates(ps', types') && ShapedTypes(types') && types'.Keys <= KeywordSet(ps')
    decreases |s|
  {
    hide ScanPredicate, IsName, ShapedMatcher, ShapedTypes;
    ScannedPredicate(types, s);
    var (p, types') := ScanPredicate(types, s).value;
    var rest := ScanPredicate(types, s).rest;
    assert Keywords(ps + [p]) == Keywords(ps) + [p.keyword];
    assert types'.Keys <= KeywordSet(ps + [p]);
    if Peek(rest) == ',' {
      ScannedPredicates(ps + [p], types', rest[1..]);
    }
  }

  lemma {:induction false} ScannedRule(s: string)
    requires Delivered(s)
    requires ScanRule(s).Done?
    ensures Delivered(ScanRule(s).rest)
    ensures ShapedRule(ScanRule(s).value)
    decreases |s|, 0
  {
    hide ScanBody;
    if Peek(s[1..]) != ']' {
      ScannedBody([], [], map[], s[1..]);
    }
  }

  lemma {:induction false} ScannedBody(ps: seq<Predicate>, rules: seq<Rule>, types: Types, s: string)
    requires Delivered(s)
    requires ScanBody(ps, rules, types, s).Done? && ShapedRule(Rule(ps, rules, types))
    ensures Delivered(ScanBody(ps, rules, types, s).rest)
    ensures ShapedRule(ScanBody(ps, rules, types, s).value)
    decreases |s|, 2
  {
    hide ScanRules, ScanPredicates, ShapedPredicates, ShapedTypes;
    if Peek(s) == '[' {
      ScannedRules(rules, s);
      var r := ScanRules(rules, s);
      if Peek(r.rest) != ']' {
        ScannedBody(ps, r.value, types, r.rest);
      }
    } else {
      ScannedPredicates(ps, types, s);
      var r := ScanPredicates(ps, types, s);
      if Peek(r.rest) != ']' {
        ScannedBody(r.value.0, rules, r.value.1, r.rest);
      }
    }
  }

  lemma {:induction false} ScannedRules(rules: seq<Rule>, s: string)
    requires Delivered(s)
    requires ScanRules(rules, s).Done? && forall r :: r in rules ==> ShapedRule(r)
    ensures Delivered(ScanRules(rules, s).rest)
    ensures forall r :: r in ScanRules(rules, s).value ==> ShapedRule(r)
    decreases |s|, 1
  {
    hide ScanRule, ShapedRule;
    if Peek(s) == '[' {
      ScannedRule(s);
      ScannedRules(rules + [ScanRule(s).value], ScanRule(s).rest);
    }
  }

  lemma {:induction false} ScannedTypes(types: Types, s: string)
    requires Delivered(s)
    requires ScanTypes(types, s).Done? && ShapedTypes(types)
    ensures Delivered(ScanTypes(types, s).rest)
    ensures ShapedTypes(ScanTypes(types, s).value)
    decreases |s|
  {
    hide Ident, IsName;
    IdentIsWord(false, true, s);
    var name, s1 := Ident(false, true, s).value, Ident(false, true, s).rest;
    if name != "" {
      IdentIsWord(false, false, s1[1..]);
      var t, s2 := Ident(false, false, s1[1..]).value, Ident(false, false, s1[1..]).rest;
      ScannedTypes(types[name := t], s2[1..]);
    }
  }

  /** Every schema that is read from a text is shaped. */
  lemma {:induction false} ParsedIsShaped(text: string)
    requires Read(text).Some?
    ensures Shaped(Read(text).value)
  {
    hide ScanTypes, ScanRules, ShapedTypes, ShapedRule, Deliver, Delivered;
    var s := Deliver(text, false);
    assert ShapedTypes(map[]) by { NoTypes(); }
    ScannedTypes(map[], s);
    ScannedRules([], ScanTypes(map[], s).rest);
  }

  lemma {:induction false} NoTypes()
    ensures ShapedTypes(map[])
  {
  }

  /** The schemas that survive printing and reading are exactly the shaped ones in which
      no rule types a keyword that occurs twice in it. */
  lemma {:induction false} Survives(schema: Schema, names: seq<string>)
    requires Enumerates(names, schema.types)
    ensures Read(Write(schema, names)) == Some(schema) <==> Shaped(schema) && AllTypedOnce(schema.rules)
  {
    hide Read, Write, Shaped, AllTypedOnce;
    if Shaped(schema) {
      RoundTrip(schema, names);
    } else if Read(Write(schema, names)) == Some(schema) {
      ParsedIsShaped(Write(schema, names));
    }
  }

  /** What was read once is read again after printing exactly under that condition. */
  lemma {:induction false} ReadTwice(text: string, names: seq<string>)
    requires Read(text).Some? && Enumerates(names, Read(text).value.types)
    ensures Read(Write(Read(text).value, names)) == if AllTypedOnce(Read(text).value.rules) then Read(text) else None
  {
    hide Read, Write, Shaped, AllTypedOnce;
    ParsedIsShaped(text);
    RoundTrip(Read(text).value, names);
  }

  /** A blank in a value is lost: the schema does not survive. */
  lemma {:induction false} BlankIsLost(k: string, types: Types)
    ensures !Shaped(Schema(map[], [Rule([Predicate(k, MatchValue("a b"))], [], types)]))
  {
    var rule := Rule([Predicate(k, MatchValue("a b"))], [], types);
    assert "a b"[1] == ' ' && ' ' in "a b";
    assert !IsValue("a b");
    assert rule.predicates[0] in rule.predicates;
    assert rule in [rule];
  }

  // ----- The grammar by its characters -----

  predicate Ends(c: char)
  {
    c == ',' || c == '[' || c == ']'
  }

  /** A keyword with a question mark is optional, with the default behind it; with a minus sign
      it is hidden, and ignored where no type is declared; with an equals sign it has values,
      separated by slashes; alone it takes every value. */
  lemma {:induction false} FormsOfPredicate(k: string, types: Types, d: string, v: string, u: string, rest: string)
    requires IsName(k) && IsDefault(d) && IsValue(v) && IsValue(u) && rest != "" && Ends(rest[0])
    ensures ScanPredicate(types, k + "?" + d + rest) == Done((Predicate(k, MatchOptional(d)), types), rest)
    ensures ScanPredicate(types, k + "-" + d + rest) ==
            Done((Predicate(k, MatchHidden(d)), if k in types then types else types[k := "Ignore"]), rest)
    ensures ScanPredicate(types, k + rest) == Done((Predicate(k, MatchAlways), types), rest)
    ensures ScanPredicate(types, k + "=" + v + rest) == Done((Predicate(k, MatchValue(v)), types), rest)
    ensures v == u ==> ScanPredicate(types, k + "=" + v + "/" + u + rest) == Done((Predicate(k, MatchValue(v)), types), rest)
    ensures Less(v, u) ==> ScanPredicate(types, k + "=" + v + "/" + u + rest) == Done((Predicate(k, MatchAny([v, u])), types), rest)
    ensures Less(u, v) ==> ScanPredicate(types, k + "=" + v + "/" + u + rest) == Done((Predicate(k, MatchAny([u, v])), types), rest)
  {
    FormWithDefault(k, types, d, rest);
    FormWithValue(k, types, v, rest);
    FormWithValues(k, types, v, u, rest);
    FormAlone(k, types, rest);
  }

  lemma {:induction false} FormAlone(k: string, types: Types, rest: string)
    requires IsName(k) && rest != "" && Ends(rest[0])
    ensures ScanPredicate(types, k + rest) == Done((Predicate(k, MatchAlways), types), rest)
  {
    hide Ident;
    StopChars();
    IdentReads(false, false, k, rest);
  }

  lemma {:induction false} FormWithDefault(k: string, types: Types, d: string, rest: string)
    requires IsName(k) && IsDefault(d) && rest != "" && Ends(rest[0])
    ensures ScanPredicate(types, k + "?" + d + rest) == Done((Predicate(k, MatchOptional(d)), types), rest)
    ensures ScanPredicate(types, k + "-" + d + rest) ==
            Done((Predicate(k, MatchHidden(d)), if k in types then types else types[k := "Ignore"]), rest)
  {
    hide Ident;
    StopChars();
    var optional, hidden := "?" + d + rest, "-" + d + rest;
    assert k + "?" + d + rest == k + optional && k + "-" + d + rest == k + hidden;
    assert optional[1..] == d + rest && hidden[1..] == d + rest;
    IdentReads(false, false, k, optional);
    IdentReads(false, false, k, hidden);
    IdentReads(true, true, d, rest);
  }

  lemma {:induction false} FormWithValue(k: string, types: Types, v: string, rest: string)
    requires IsName(k) && IsValue(v) && rest != "" && Ends(rest[0])
    ensures ScanPredicate(types, k + "=" + v + rest) == Done((Predicate(k, MatchValue(v)), types), rest)
  {
    hide Ident;
    StopChars();
    var text := "=" + v + rest;
    assert k + "=" + v + rest == k + text && text[1..] == v + rest;
    IdentReads(false, false, k, text);
    IdentReads(true, false, v, rest);
    assert Insert([], v) == [v];
    assert ScanValues([], v + rest) == Done([v], rest);
  }

  lemma {:induction false} FormWithValues(k: string, types: Types, v: string, u: string, rest: string)
    requires IsName(k) && IsValue(v) && IsValue(u) && rest != "" && Ends(rest[0])
    ensures v == u ==> ScanPredicate(types, k + "=" + v + "/" + u + rest) == Done((Predicate(k, MatchValue(v)), types), rest)
    ensures Less(v, u) ==> ScanPredicate(types, k + "=" + v + "/" + u + rest) == Done((Predicate(k, MatchAny([v, u])), types), rest)
    ensures Less(u, v) ==> ScanPredicate(types, k + "=" + v + "/" + u + rest) == Done((Predicate(k, MatchAny([u, v])), types), rest)
  {
    hide Ident, Less;
    StopChars();
    var text, tail := "=" + v + "/" + u + rest, "/" + u + rest;
    assert k + "=" + v + "/" + u + rest == k + text && text[1..] == v + tail && tail[1..] == u + rest;
    IdentReads(false, false, k, text);
    IdentReads(true, false, v, tail);
    IdentReads(true, false, u, rest);
    assert Insert([], v) == [v];
    TwoValues(v, u);
    assert ScanValues([v], u + rest) == Done(Insert([v], u), rest);
    assert ScanValues([], v + tail) == Done(Insert([v], u), rest);
  }

  lemma {:induction false} TwoValues(v: string, u: string)
    ensures v == u ==> Insert([v], u) == [v]
    ensures Less(v, u) ==> Insert([v], u) == [v, u]
    ensures Less(u, v) ==> Insert([v], u) == [u, v]
  {
    assert [v][1..] == [];
    if v == u && Less(u, v) {
      LessIsStrict(u, v);
    }
    if Less(v, u) {
      LessIsStrict(v, u);
    }
  }

  /** A colon declares the type of a keyword, in front of any of these forms. */
  lemma {:induction false} FormWithType(k: string, t: string, types: Types, rest: string)
    requires IsName(k) && IsName(t) && k !in types && rest != "" && (Stops(rest[0]) || rest[0] == '-')
    ensures ScanPredicate(types, k + ":" + t + rest) == ScanMatcher(k, types[k := t], rest)
  {
    hide Ident, ScanMatcher;
    StopChars();
    var text := ":" + t + rest;
    assert k + ":" + t + rest == k + text && text[1..] == t + rest;
    IdentReads(false, false, k, text);
    IdentReads(false, false, t, rest);
  }

  /** A rule of one predicate, by its characters. */
  lemma {:induction false} FormOfLeaf(text: string, p: Predicate, types: Types, rest: string)
    requires text != "" && text[0] != '[' && text[0] != ']' && ScanPredicate(map[], text + ("]" + rest)) == Done((p, types), "]" + rest)
    ensures ScanRule("[" + (text + ("]" + rest))) == Done(Rule([p], [], types), rest)
  {
    hide ScanPredicate;
    var body, end := text + ("]" + rest), "]" + rest;
    assert ("[" + body)[1..] == body && end[1..] == rest && body[0] == text[0];
    assert [] + [p] == [p];
    assert ScanPredicates([], map[], body) == Done(([p], types), end);
    assert ScanBody([], [], map[], body) == Done(Rule([p], [], types), rest);
  }

  /** Two predicates separated by a comma, and rules below them. */
  lemma {:induction false} FormOfBody(first: string, p: Predicate, second: string, q: Predicate, types: Types, inner: string, below: seq<Rule>, rest: string)
    requires first != "" && first[0] != '[' && first[0] != ']' && inner != "" && inner[0] == '['
    requires ScanPredicate(map[], first) == Done((p, types), "," + second) && ScanPredicate(types, second) == Done((q, types), inner)
    requires ScanRules([], inner) == Done(below, "]" + rest)
    ensures ScanRule("[" + first) == Done(Rule([p, q], below, types), rest)
  {
    hide ScanPredicate, ScanRules;
    assert ("[" + first)[1..] == first && ("," + second)[1..] == second && ("]" + rest)[1..] == rest;
    assert [] + [p] == [p] && [p] + [q] == [p, q];
    assert ScanPredicates([p], types, second) == Done(([p, q], types), inner);
    assert ScanPredicates([], map[], first) == Done(([p, q], types), inner);
    assert ScanBody([p, q], [], types, inner) == Done(Rule([p, q], below, types), rest);
    assert ScanBody([], [], map[], first) == Done(Rule([p, q], below, types), rest);
  }

  /** A declaration, by its characters. */
  lemma {:induction false} FormOfTypes(name: string, t: string, types: Types, rest: string)
    requires IsName(name) && IsName(t) && name !in types
    ensures ScanTypes(types, name + ":" + t + ";" + rest) == ScanTypes(types[name := t], rest)
  {
    hide Ident;
    StopChars();
    var text, tail := ":" + t + ";" + rest, ";" + rest;
    assert name + ":" + t + ";" + rest == name + text && text[1..] == t + tail && tail[1..] == rest;
    IdentReadsName(name, text);
    IdentReads(false, false, t, tail);
  }

  /** No value begins here: the text is at its end, at a separator or at a minus sign. */
  predicate NoValue(rest: string)
  {
    rest == "" || rest[0] == '-' || rest[0] == '\0' || rest[0] == '/' || rest[0] == '=' || rest[0] == ',' || rest[0] == ';'
    || rest[0] == ':' || rest[0] == '[' || rest[0] == ']' || rest[0] == '?'
  }

  /** A predicate has a keyword; no type that is declared already, nor an empty one; nothing
      else behind the keyword than the forms above; and no empty value. */
  lemma {:induction false} FormsRefused(k: string, v: string, types: Types, rest: string)
    requires IsName(k) && IsValue(v)
    ensures NoValue(rest) ==> ScanPredicate(types, rest) == Fail
    ensures ScanPredicate(types, k) == ScanPredicate(types, k + "/" + rest) == ScanPredicate(types, k + ";" + rest) == Fail
    ensures k in types || NoValue(rest) ==> ScanPredicate(types, k + ":" + rest) == Fail
    ensures NoValue(rest) ==> ScanPredicate(types, k + "=" + rest) == Fail
    ensures NoValue(rest) ==> ScanPredicate(types, k + "=" + v + "/" + rest) == Fail
  {
    hide *;
    RefusedAhead(k, types, rest);
    RefusedType(k, types, rest);
    if NoValue(rest) {
      RefusedValue(k, v, types, rest);
    }
  }

  lemma {:induction false} RefusedAhead(k: string, types: Types, rest: string)
    requires IsName(k)
    ensures NoValue(rest) ==> ScanPredicate(types, rest) == Fail
    ensures ScanPredicate(types, k) == ScanPredicate(types, k + "/" + rest) == ScanPredicate(types, k + ";" + rest) == Fail
  {
    hide Ident, ScanValues, IsName;
    StopChars();
    assert k + "" == k;
    IdentReads(false, false, k, "");
    BareFails(k, types, "");
    var slash, semi := "/" + rest, ";" + rest;
    assert k + "/" + rest == k + slash && k + ";" + rest == k + semi;
    IdentReads(false, false, k, slash);
    IdentReads(false, false, k, semi);
    if NoValue(rest) {
      NoIdentHere(rest);
    }
  }

  lemma {:induction false} RefusedType(k: string, types: Types, rest: string)
    requires IsName(k)
    ensures k in types || NoValue(rest) ==> ScanPredicate(types, k + ":" + rest) == Fail
  {
    hide Ident, ScanMatcher, IsName;
    StopChars();
    var colon := ":" + rest;
    assert k + ":" + rest == k + colon && colon[1..] == rest;
    IdentReads(false, false, k, colon);
    if NoValue(rest) {
      NoIdentHere(rest);
    }
  }

  lemma {:induction false} RefusedValue(k: string, v: string, types: Types, rest: string)
    requires IsName(k) && IsValue(v) && NoValue(rest)
    ensures ScanPredicate(types, k + "=" + rest) == Fail
    ensures ScanPredicate(types, k + "=" + v + "/" + rest) == Fail
  {
    hide Ident, IsName, IsValue, NoValue;
    StopChars();
    var equal, tail := "=" + rest, "/" + rest;
    var all := "=" + v + "/" + rest;
    assert k + "=" + rest == k + equal && equal[1..] == rest && tail[1..] == rest;
    assert k + "=" + v + "/" + rest == k + all && all[1..] == v + tail;
    NoIdentHere(rest);
    IdentReads(false, false, k, equal);
    IdentReads(false, false, k, all);
    IdentReads(true, false, v, tail);
    assert ScanValues(Insert([], v), rest) == Fail;
    assert ScanValues([], v + tail) == Fail;
    assert ScanValues([], rest) == Fail;
  }

  lemma {:induction false} BareFails(k: string, types: Types, rest: string)
    requires rest == ""
    ensures ScanType(k, types, rest) == Done(types, rest) && ScanMatcher(k, types, rest) == Fail
  {
  }

  lemma {:induction false} NoIdentHere(rest: string)
    requires NoValue(rest)
    ensures Ident(false, false, rest) == Fail && Ident(true, false, rest) == Fail
  {
  }

  /** A declaration of a name that has a type already is refused, as is one without a type
      or without its semicolon. */
  lemma {:induction false} TypesRefused(name: string, t: string, types: Types, rest: string)
    requires IsName(name) && IsName(t)
    ensures name in types ==> ScanTypes(types, name + ":" + t + ";" + rest) == Fail
    ensures NoValue(rest) ==> ScanTypes(types, name + ":" + rest) == Fail
    ensures NoValue(rest) && (rest == "" || rest[0] != ';') ==> ScanTypes(types, name + ":" + t + rest) == Fail
  {
    hide Ident;
    StopChars();
    var text, tail, short := ":" + t + ";" + rest, ";" + rest, ":" + rest;
    assert name + ":" + t + ";" + rest == name + text && text[1..] == t + tail && name + ":" + rest == name + short && short[1..] == rest;
    IdentReadsName(name, text);
    IdentReads(false, false, t, tail);
    if NoValue(rest) {
      NoIdentHere(rest);
      IdentReadsName(name, short);
      var open := ":" + t + rest;
      assert name + ":" + t + rest == name + open && open[1..] == t + rest;
      IdentReadsName(name, open);
      IdentReads(false, false, t, rest);
    }
  }

  /** Nothing may follow the last rule, and an empty pair of brackets is a rule. */
  lemma {:induction false} TextRefused(rest: string)
    requires rest != "" && rest[0] != '[' && rest[0] != '\0'
    ensures Parse("[]" + rest) == None && Parse("[]") == Some(Schema(map[], [Rule([], [], map[])]))
  {
    hide Ident;
    var all := "[]" + rest;
    NoIdent(all);
    NoIdent("[]");
    assert all[2..] == rest && all[1..][0] == ']';
    assert "[]"[2..] == "" && "[]"[1..][0] == ']';
    var none := Rule([], [], map[]);
    assert [] + [none] == [none];
    assert ScanRules([none], rest) == Done([none], rest);
    assert ScanRules([none], "") == Done([none], "");
    assert ScanRule(all) == Done(none, rest) && ScanRule("[]") == Done(none, "");
    assert ScanRules([], all) == Done([none], rest) && ScanRules([], "[]") == Done([none], "");
  }

  lemma {:induction false} ReadsOneRule(text: string, p: Predicate, types: Types)
    requires text != "" && Delivered(text) && text[0] != '[' && text[0] != ']'
    requires ScanPredicate(map[], text + "]") == Done((p, types), "]")
    ensures Read("[" + text + "]") == Some(Schema(map[], [Rule([p], [], types)]))
  {
    hide ScanPredicate, Ident, Deliver, ScanBody, ScanPredicates;
    var all, rule := "[" + text + "]", Rule([p], [], types);
    assert Delivered("[") && Delivered("]") by { BracketsDelivered(); }
    DeliveredParts("[", text);
    DeliveredParts("[" + text, "]");
    AllDelivered(all);
    assert "]" + "" == "]" && all == "[" + (text + ("]" + ""));
    FormOfLeaf(text, p, types, "");
    assert [] + [rule] == [rule];
    assert ScanRules([rule], "") == Done([rule], "");
    assert ScanRules([], all) == Done([rule], "");
    NoIdent(all);
  }

  lemma {:induction false} BracketsDelivered()
    ensures Delivered("[") && Delivered("]")
  {
  }

  lemma {:induction false} AllDelivered(text: string)
    requires Delivered(text)
    ensures Deliver(text, false) == text
  {
    assert text + "" == text;
    DeliverPlain(text, "");
  }

  lemma {:induction false} TextOptional()
    ensures Read("[domain?g]") == Some(Schema(map[], [Rule([Predicate("domain", MatchOptional("g"))], [], map[])]))
  {
    hide ScanPredicate, Read, Less;
    FormWithDefault("domain", map[], "g", "]");
    assert "domain" + "?" + "g" + "]" == "domain?g" + "]";
    assert "[" + "domain?g" + "]" == "[domain?g]";
    ReadsOneRule("domain?g", Predicate("domain", MatchOptional("g")), map[]);
  }

  lemma {:induction false} TextHidden()
    ensures Read("[domain-g]") == Some(Schema(map[], [Rule([Predicate("domain", MatchHidden("g"))], [], map["domain" := "Ignore"])]))
  {
    hide ScanPredicate, Read, Less;
    FormWithDefault("domain", map[], "g", "]");
    assert "domain" + "-" + "g" + "]" == "domain-g" + "]";
    var none: Types := map[];
    assert none["domain" := "Ignore"] == map["domain" := "Ignore"];
    assert "[" + "domain-g" + "]" == "[domain-g]";
    ReadsOneRule("domain-g", Predicate("domain", MatchHidden("g")), map["domain" := "Ignore"]);
  }

  lemma {:induction false} TextAlways()
    ensures Read("[class]") == Some(Schema(map[], [Rule([Predicate("class", MatchAlways)], [], map[])]))
  {
    hide ScanPredicate, Read, Less;
    FormAlone("class", map[], "]");
    assert "[" + "class" + "]" == "[class]";
    ReadsOneRule("class", Predicate("class", MatchAlways), map[]);
  }

  lemma {:induction false} TextValue()
    ensures Read("[class=od]") == Some(Schema(map[], [Rule([Predicate("class", MatchValue("od"))], [], map[])]))
  {
    hide ScanPredicate, Read, Less;
    FormWithValue("class", map[], "od", "]");
    assert "class" + "=" + "od" + "]" == "class=od" + "]";
    assert "[" + "class=od" + "]" == "[class=od]";
    ReadsOneRule("class=od", Predicate("class", MatchValue("od")), map[]);
  }

  lemma {:induction false} TextAny()
    ensures Read("[class=rd/od]") == Some(Schema(map[], [Rule([Predicate("class", MatchAny(["od", "rd"]))], [], map[])]))
  {
    hide ScanPredicate, Read, Less;
    assert Less("od", "rd") by { OdBeforeRd(); }
    FormWithValues("class", map[], "rd", "od", "]");
    assert "class" + "=" + "rd" + "/" + "od" + "]" == "class=rd/od" + "]";
    assert "[" + "class=rd/od" + "]" == "[class=rd/od]";
    ReadsOneRule("class=rd/od", Predicate("class", MatchAny(["od", "rd"])), map[]);
  }

  lemma {:induction false} TextTyped()
    ensures Read("[date:Date]") == Some(Schema(map[], [Rule([Predicate("date", MatchAlways)], [], map["date" := "Date"])]))
  {
    hide ScanPredicate, Read, Less;
    FormWithType("date", "Date", map[], "]");
    var none: Types := map[];
    assert none["date" := "Date"] == map["date" := "Date"];
    assert "date" + ":" + "Date" + "]" == "date:Date" + "]";
    assert "[" + "date:Date" + "]" == "[date:Date]";
    ReadsOneRule("date:Date", Predicate("date", MatchAlways), map["date" := "Date"]);
  }

  lemma {:induction false} OdBeforeRd()
    ensures Less("od", "rd")
  {
  }

  /** One text of each form, through the stream. */
  lemma {:induction false} TextsOfForms()
    ensures Read("[domain?g]") == Some(Schema(map[], [Rule([Predicate("domain", MatchOptional("g"))], [], map[])]))
    ensures Read("[domain-g]") == Some(Schema(map[], [Rule([Predicate("domain", MatchHidden("g"))], [], map["domain" := "Ignore"])]))
    ensures Read("[class]") == Some(Schema(map[], [Rule([Predicate("class", MatchAlways)], [], map[])]))
    ensures Read("[class=od]") == Some(Schema(map[], [Rule([Predicate("class", MatchValue("od"))], [], map[])]))
    ensures Read("[class=rd/od]") == Some(Schema(map[], [Rule([Predicate("class", MatchAny(["od", "rd"]))], [], map[])]))
    ensures Read("[date:Date]") == Some(Schema(map[], [Rule([Predicate("date", MatchAlways)], [], map["date" := "Date"])]))
  {
    hide *;
    TextOptional();
    TextHidden();
    TextAlways();
    TextValue();
    TextAny();
    TextTyped();
  }

  const ONCE: Predicate := Predicate("a", MatchAlways)
  const AGAIN: Predicate := Predicate("a", MatchValue("x"))

  lemma {:induction false} ReadOnce()
    ensures ScanPredicate(map[], "a:T,a=x]") == Done((ONCE, map["a" := "T"]), ",a=x]")
  {
    hide Ident;
    IdentReads(false, false, "a", ":T,a=x]");
    IdentReads(false, false, "T", ",a=x]");
    assert "a:T,a=x]" == "a" + ":T,a=x]" && ":T,a=x]"[1..] == "T" + ",a=x]";
    assert map[]["a" := "T"] == map["a" := "T"];
  }

  lemma {:induction false} ReadAgain(types: Types)
    ensures ScanPredicate(types, "a=x]") == Done((AGAIN, types), "]")
  {
    hide Ident;
    IdentReads(false, false, "a", "=x]");
    IdentReads(true, false, "x", "]");
    assert "a=x]" == "a" + "=x]" && "=x]"[1..] == "x" + "]";
    OneValue("x");
    assert [] + ["x"] == ["x"];
    ReadValues([], ["x"], "]");
  }

  lemma {:induction false} ReadBoth()
    ensures ScanRule("[a:T,a=x]") == Done(Rule([ONCE, AGAIN], [], map["a" := "T"]), "")
  {
    hide ScanPredicate;
    ReadOnce();
    ReadAgain(map["a" := "T"]);
    assert "[a:T,a=x]"[1..] == "a:T,a=x]" && ",a=x]"[1..] == "a=x]" && "]"[1..] == "";
    assert [] + [ONCE] == [ONCE] && [ONCE] + [AGAIN] == [ONCE, AGAIN];
    assert ScanPredicates([ONCE], map["a" := "T"], "a=x]") == Done(([ONCE, AGAIN], map["a" := "T"]), "]");
    assert ScanPredicates([], map[], "a:T,a=x]") == Done(([ONCE, AGAIN], map["a" := "T"]), "]");
  }

  lemma {:induction false} TextDelivered()
    ensures Deliver("[a:T,a=x]", false) == "[a:T,a=x]"
  {
    assert "[a:T,a=x]" + "" == "[a:T,a=x]";
    DeliverPlain("[a:T,a=x]", "");
  }

  /** A rule that the parser accepts and whose printed form it rejects: the second
      occurrence of a keyword that the first one typed. */
  lemma {:induction false} TypedTwice()
    ensures Read("[a:T,a=x]").Some?
    ensures Read(Write(Read("[a:T,a=x]").value, [])) == None
  {
    hide ScanRule, Ident, WriteRules, WriteTypes, Deliver;
    assert Deliver("[a:T,a=x]", false) == "[a:T,a=x]" by { TextDelivered(); }
    var text, rule := "[a:T,a=x]", Rule([ONCE, AGAIN], [], map["a" := "T"]);
    ReadBoth();
    assert [] + [rule] == [rule];
    assert ScanRules([rule], "") == Done([rule], "");
    assert ScanRules([], text) == Done([rule], "");
    NoIdent(text);
    assert Read(text) == Some(Schema(map[], [rule]));
    ReadTwice(text, []);
    assert rule.predicates[0].keyword == rule.predicates[1].keyword;
    assert rule in [rule];
  }
}
