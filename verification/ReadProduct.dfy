/** Read expansion of one level is the lexicographic product of the value lists. */
module ReadProduct {
  import opened Wrappers
  import opened Keys
  import opened Rules
  import opened WriteExpansion
  import opened Stores
  import opened ReadExpansion

  /** The values of a list that a predicate takes, in order. */
  function Accepted(p: Predicate, values: seq<string>): (r: seq<string>)
    ensures forall v :: v in r <==> v in values && p.matcher.Accepts(v)
  {
    if values == [] then []
    else if p.matcher.Accepts(values[0]) then [values[0]] + Accepted(p, values[1..])
    else Accepted(p, values[1..])
  }

  /** Every tuple of `tails` with the pair (k, v) in front, for every value in turn. */
  function Fronted(k: string, values: seq<string>, tails: seq<seq<Pair>>): (r: seq<seq<Pair>>)
    ensures |r| == |values| * |tails|
  {
    if values == [] then []
    else seq(|tails|, i requires 0 <= i < |tails| => [(k, values[0])] + tails[i]) + Fronted(k, values[1..], tails)
  }

  /** The product of one list of values per predicate, last predicate fastest. */
  function Product(ps: seq<Predicate>, lists: seq<seq<string>>): seq<seq<Pair>>
    requires |ps| == |lists|
  {
    if ps == [] then [[]]
    else Fronted(ps[0].keyword, Accepted(ps[0], lists[0]), Product(ps[1..], lists[1..]))
  }

  // ----- The product by position and by membership -----

  lemma {:induction false} FrontedAt(k: string, values: seq<string>, tails: seq<seq<Pair>>, a: nat, b: nat)
    requires a < |values| && b < |tails|
    ensures 0 <= a * |tails| + b < |values| * |tails|
    ensures Fronted(k, values, tails)[a * |tails| + b] == [(k, values[a])] + tails[b]
  {
    BlockBound(a, b, |values|, |tails|);
    if a > 0 {
      FrontedAt(k, values[1..], tails, a - 1, b);
      assert a * |tails| + b == |tails| + ((a - 1) * |tails| + b);
    }
  }

  lemma {:induction false} BlockBound(a: nat, b: nat, m: nat, n: nat)
    requires a < m && b < n
    ensures 0 <= a * n + b < m * n
  {
    assert (m - a - 1) * n >= 0;
    assert m * n == a * n + n + (m - a - 1) * n;
  }

  function Quotient(n: nat, k: nat): nat
  {
    if k == 0 then 0 else n / k
  }

  function Remainder(n: nat, k: nat): nat
  {
    if k == 0 then 0 else n % k
  }

  /** Position `n` of the product is the tuple of the digits of `n`, the first
      predicate being the most significant one. */
  function Digits(ps: seq<Predicate>, lists: seq<seq<string>>, n: nat): seq<Pair>
    requires |ps| == |lists| && n < |Product(ps, lists)|
  {
    if ps == [] then []
    else
      var rest := |Product(ps[1..], lists[1..])|;
      DigitBounds(n, |Accepted(ps[0], lists[0])|, rest);
      [(ps[0].keyword, Accepted(ps[0], lists[0])[Quotient(n, rest)])] + Digits(ps[1..], lists[1..], Remainder(n, rest))
  }

  lemma {:induction false} DigitBounds(n: nat, m: nat, k: nat)
    requires n < m * k
    ensures Quotient(n, k) < m && Remainder(n, k) < k && n == Quotient(n, k) * k + Remainder(n, k)
  {
  }

  /** The product in order: its length is the product of the lengths of the accepted
      lists, and every position holds the tuple of its digits. */
  lemma {:induction false} ProductAt(ps: seq<Predicate>, lists: seq<seq<string>>, n: nat)
    requires |ps| == |lists| && n < |Product(ps, lists)|
    ensures Product(ps, lists)[n] == Digits(ps, lists, n)
  {
    if ps != [] {
      hide Fronted, Accepted, Quotient, Remainder;
      var values := Accepted(ps[0], lists[0]);
      var tails := Product(ps[1..], lists[1..]);
      DigitBounds(n, |values|, |tails|);
      FrontedAt(ps[0].keyword, values, tails, Quotient(n, |tails|), Remainder(n, |tails|));
      ProductAt(ps[1..], lists[1..], Remainder(n, |tails|));
    }
  }

  /** One value per predicate, taken from its list and accepted. */
  predicate Choice(ps: seq<Predicate>, lists: seq<seq<string>>, pairs: seq<Pair>)
    requires |ps| == |lists|
  {
    && |pairs| == |ps|
    && forall i :: 0 <= i < |ps| ==>
         pairs[i].0 == ps[i].keyword && pairs[i].1 in lists[i] && ps[i].matcher.Accepts(pairs[i].1)
  }

  lemma {:induction false} InFronted(k: string, values: seq<string>, tails: seq<seq<Pair>>, t: seq<Pair>)
    ensures t in Fronted(k, values, tails) <==>
            t != [] && t[0].0 == k && t[0].1 in values && t[1..] in tails
  {
    if values != [] {
      var block := seq(|tails|, i requires 0 <= i < |tails| => [(k, values[0])] + tails[i]);
      InFronted(k, values[1..], tails, t);
      if t in block {
        var i :| 0 <= i < |tails| && t == [(k, values[0])] + tails[i];
        assert t[1..] == tails[i];
      }
      if t != [] && t[0] == (k, values[0]) && t[1..] in tails {
        var i :| 0 <= i < |tails| && t[1..] == tails[i];
        assert block[i] == [t[0]] + t[1..] == t;
      }
    }
  }

  /** The product holds exactly the choices. */
  lemma {:induction false} ProductIsChoices(ps: seq<Predicate>, lists: seq<seq<string>>, pairs: seq<Pair>)
    requires |ps| == |lists|
    ensures pairs in Product(ps, lists) <==> Choice(ps, lists, pairs)
  {
    if ps != [] {
      InFronted(ps[0].keyword, Accepted(ps[0], lists[0]), Product(ps[1..], lists[1..]), pairs);
      if pairs != [] {
        ProductIsChoices(ps[1..], lists[1..], pairs[1..]);
        if Choice(ps[1..], lists[1..], pairs[1..]) && pairs[0].0 == ps[0].keyword
           && pairs[0].1 in lists[0] && ps[0].matcher.Accepts(pairs[0].1) {
          forall i | 0 <= i < |ps|
            ensures pairs[i].0 == ps[i].keyword && pairs[i].1 in lists[i] && ps[i].matcher.Accepts(pairs[i].1)
          {
            assert i > 0 ==> pairs[i] == pairs[1..][i - 1];
          }
        }
        if Choice(ps, lists, pairs) {
          forall i | 0 <= i < |ps| - 1
            ensures pairs[1..][i].0 == ps[1..][i].keyword && pairs[1..][i].1 in lists[1..][i] && ps[1..][i].matcher.Accepts(pairs[1..][i].1)
          {
            assert pairs[1..][i] == pairs[i + 1];
          }
        }
      }
    }
  }

  // ----- The nested loops run through the product -----

  /** What a rule does for a list of complete pushes, one after the other. */
  function ReachAll(w: World, registry: Registry, rule: Rule, depth: nat, done: seq<Pair>, tuples: seq<seq<Pair>>, s: Reader): Reader
    requires depth <= 2
  {
    if tuples == [] || s.threw.Some? then s
    else ReachAll(w, registry, rule, depth, done, tuples[1..], Reach(w, registry, rule, depth, done + tuples[0], s))
  }

  lemma {:induction false} ReachAllConcat(w: World, registry: Registry, rule: Rule, depth: nat, done: seq<Pair>,
                                          a: seq<seq<Pair>>, b: seq<seq<Pair>>, s: Reader)
    requires depth <= 2
    ensures ReachAll(w, registry, rule, depth, done, a + b, s) ==
            ReachAll(w, registry, rule, depth, done, b, ReachAll(w, registry, rule, depth, done, a, s))
  {
    if a == [] {
      assert a + b == b;
    } else if s.threw.None? {
      assert (a + b)[0] == a[0] && (a + b)[1..] == a[1..] + b;
      ReachAllConcat(w, registry, rule, depth, done, a[1..], b, Reach(w, registry, rule, depth, done + a[0], s));
    }
  }

  lemma {:induction false} ReachAllFront(w: World, registry: Registry, rule: Rule, depth: nat, done: seq<Pair>,
                                         p: Pair, tails: seq<seq<Pair>>, s: Reader)
    requires depth <= 2
    ensures ReachAll(w, registry, rule, depth, done, seq(|tails|, i requires 0 <= i < |tails| => [p] + tails[i]), s) ==
            ReachAll(w, registry, rule, depth, done + [p], tails, s)
  {
    var fronted := seq(|tails|, i requires 0 <= i < |tails| => [p] + tails[i]);
    if tails != [] && s.threw.None? {
      assert fronted[1..] == seq(|tails[1..]|, i requires 0 <= i < |tails[1..]| => [p] + tails[1..][i]);
      assert done + fronted[0] == (done + [p]) + tails[0];
      ReachAllFront(w, registry, rule, depth, done, p, tails[1..], Reach(w, registry, rule, depth, (done + [p]) + tails[0], s));
    }
  }

  /** What the value lists of a level depend on. */
  datatype View = View(db: Option<Dict>, selected: map<Dict, Dict>)

  predicate InView(view: Option<View>, s: Reader)
  {
    view.None? || view.value == View(s.db, s.selected)
  }

  /** The value lists of the predicates of a rule do not change during the walk:
      they are the same in every state, or in every state of one view. */
  ghost predicate Steady(w: World, registry: Registry, ps: seq<Predicate>, lists: seq<seq<string>>, view: Option<View>)
    requires |ps| == |lists|
  {
    forall i, s :: 0 <= i < |ps| && InView(view, s) ==> Candidates(w, s, registry, ps[i]) == lists[i]
  }

  /** At the datum level nothing but the hits changes. */
  lemma {:induction false} ReachKeepsView(w: World, registry: Registry, rule: Rule, ps: seq<Pair>, s: Reader)
    ensures Reach(w, registry, rule, 2, ps, s).db == s.db && Reach(w, registry, rule, 2, ps, s).selected == s.selected
  {
  }

  lemma {:induction false} ReachAllKeepsView(w: World, registry: Registry, rule: Rule, done: seq<Pair>, tuples: seq<seq<Pair>>, s: Reader)
    ensures ReachAll(w, registry, rule, 2, done, tuples, s).db == s.db
    ensures ReachAll(w, registry, rule, 2, done, tuples, s).selected == s.selected
  {
    if tuples != [] && s.threw.None? {
      ReachAllKeepsView(w, registry, rule, done, tuples[1..], Reach(w, registry, rule, 2, done + tuples[0], s));
    }
  }

  /** The walk from predicate `cur` on visits, in order, exactly the product of the
      lists of the remaining predicates. */
  lemma {:induction false} LevelIsProduct(w: World, registry: Registry, rule: Rule, cur: nat, depth: nat, done: seq<Pair>,
                                          lists: seq<seq<string>>, view: Option<View>, s: Reader)
    requires depth <= 2 && cur <= |rule.predicates| == |lists|
    requires depth < 2 ==> view.None?
    requires InView(view, s) && Steady(w, registry, rule.predicates, lists, view)
    ensures ReadFrom(w, registry, rule, cur, depth, done, s) ==
            ReachAll(w, registry, rule, depth, done, Product(rule.predicates[cur..], lists[cur..]), s)
    decreases |lists| - cur, 1, 0
  {
    hide Reach, Candidates, Steady;
    if s.threw.None? {
      if cur == |rule.predicates| {
        assert Product(rule.predicates[cur..], lists[cur..]) == [[]];
        assert done + [] == done;
        assert ReachAll(w, registry, rule, depth, done, [[]][1..], Reach(w, registry, rule, depth, done, s))
            == Reach(w, registry, rule, depth, done, s);
      } else {
        SteadyAt(w, registry, rule.predicates, lists, view, cur, s);
        ValuesAreProduct(w, registry, rule, cur, depth, done, lists, view, lists[cur], s);
        assert rule.predicates[cur..][0] == rule.predicates[cur] && rule.predicates[cur..][1..] == rule.predicates[cur + 1..];
        assert lists[cur..][0] == lists[cur] && lists[cur..][1..] == lists[cur + 1..];
      }
    }
  }

  lemma {:induction false} SteadyAt(w: World, registry: Registry, ps: seq<Predicate>, lists: seq<seq<string>>, view: Option<View>, i: nat, s: Reader)
    requires |ps| == |lists| && i < |ps| && Steady(w, registry, ps, lists, view) && InView(view, s)
    ensures Candidates(w, s, registry, ps[i]) == lists[i]
  {
    hide Candidates;
  }

  lemma {:induction false} ValuesAreProduct(w: World, registry: Registry, rule: Rule, cur: nat, depth: nat, done: seq<Pair>,
                                            lists: seq<seq<string>>, view: Option<View>, values: seq<string>, s: Reader)
    requires depth <= 2 && cur < |rule.predicates| == |lists|
    requires depth < 2 ==> view.None?
    requires InView(view, s) && Steady(w, registry, rule.predicates, lists, view)
    ensures ReadValues(w, registry, rule, cur, depth, done, values, s) ==
            ReachAll(w, registry, rule, depth, done,
                     Fronted(rule.predicates[cur].keyword, Accepted(rule.predicates[cur], values),
                             Product(rule.predicates[cur + 1..], lists[cur + 1..])), s)
    decreases |lists| - cur, 0, |values|
  {
    hide Reach, Candidates, Steady, Product;
    if values != [] && s.threw.None? {
      var p := rule.predicates[cur];
      var tails := Product(rule.predicates[cur + 1..], lists[cur + 1..]);
      if p.matcher.Accepts(values[0]) {
        var pair := (p.keyword, values[0]);
        var block := seq(|tails|, i requires 0 <= i < |tails| => [pair] + tails[i]);
        LevelIsProduct(w, registry, rule, cur + 1, depth, done + [pair], lists, view, s);
        ReachAllFront(w, registry, rule, depth, done, pair, tails, s);
        var after := ReachAll(w, registry, rule, depth, done, block, s);
        if depth == 2 {
          ReachAllKeepsView(w, registry, rule, done, block, s);
        }
        var accepted := Accepted(p, values);
        assert accepted[0] == values[0] && accepted[1..] == Accepted(p, values[1..]);
        ReachAllConcat(w, registry, rule, depth, done, block, Fronted(p.keyword, accepted[1..], tails), s);
        ValuesAreProduct(w, registry, rule, cur, depth, done, lists, view, values[1..], after);
      } else {
        ValuesAreProduct(w, registry, rule, cur, depth, done, lists, view, values[1..], s);
      }
    }
  }
}
