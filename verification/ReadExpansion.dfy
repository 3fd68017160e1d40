/** What read expansion does with a request (`Rule::expand` on a request,
    `Schema::expand`, `Schema::expandSecond`) under the visitor of a retrieval
    (`MultiRetrieveVisitor`): values come from the request, filtered by the axes of
    whatever index happens to be selected. */
module ReadExpansion {
  import opened Wrappers
  import opened Keys
  import opened Rules
  import opened WriteExpansion
  import opened Stores

  type Request = map<string, seq<string>>

  /** What does not change while a request is expanded; `readers` is how many databases may be
      open for reading at a time. */
  datatype World = World(site: Site, toKey: ToKey, store: Store, request: Request, readers: nat)

  /** A hit: the three keys, the last one without empty values, and the datum. */
  datatype Element = Element(db: Dict, index: Dict, datum: Dict, data: Data)

  /** The visitor: the current database, the open databases, the one used last first, the index
      selected last in each of them, the hits so far, and the exception that ended the expansion. */
  datatype Reader = Reader(db: Option<Dict>, open: seq<Dict>, selected: map<Dict, Dict>, found: seq<Element>, threw: Option<Error>)

  /** `Type::getValues` on the request; the ignored type has no values. */
  function Listed(w: World, registry: Registry, keyword: string): seq<string>
  {
    if TypeOf(registry, keyword) == "Ignore" then []
    else if keyword in w.request then w.request[keyword] else []
  }

  /** The index that the current database has selected, if it exists. */
  function CurrentIndex(w: World, s: Reader): Option<Index>
  {
    if s.db.Some? && s.db.value in s.selected && s.db.value in w.store && s.selected[s.db.value] in w.store[s.db.value]
    then Some(w.store[s.db.value][s.selected[s.db.value]]) else None
  }

  /** `DB::axis`. */
  function AxisOf(w: World, s: Reader, keyword: string): Option<set<string>>
  {
    var index := CurrentIndex(w, s);
    if index.Some? && keyword in index.value.axes then Some(index.value.axes[keyword]) else None
  }

  /** The filter loop of `MultiRetrieveVisitor::values`. */
  function Filtered(values: seq<string>, toKey: string -> string, axis: Option<set<string>>): (r: seq<string>)
    ensures forall v :: v in r <==> v in values && (axis.None? || toKey(v) in axis.value)
    ensures axis.None? ==> r == values
    ensures |r| <= |values|
  {
    if values == [] then []
    else
      var rest := Filtered(values[1..], toKey, axis);
      if axis.None? || toKey(values[0]) in axis.value then [values[0]] + rest else rest
  }

  function Values(w: World, s: Reader, registry: Registry, keyword: string): seq<string>
  {
    Filtered(Listed(w, registry, keyword), v => w.toKey(TypeOf(registry, keyword), v), AxisOf(w, s, keyword))
  }

  /** The values that the loop over a predicate runs through. */
  function Candidates(w: World, s: Reader, registry: Registry, p: Predicate): seq<string>
  {
    var values := Values(w, s, registry, p.keyword);
    if values == [] && p.matcher.Optional() then [p.matcher.def] else values
  }

  function Without(open: seq<Dict>, key: Dict): seq<Dict>
  {
    if open == [] then [] else (if open[0] == key then [] else [open[0]]) + Without(open[1..], key)
  }

  /** The open databases that stay when one more is opened: the table closes those used least
      recently, and has room for the new one. */
  function Staying(open: seq<Dict>, readers: nat): (r: seq<Dict>)
    ensures r <= open && (readers > 0 ==> |r| < readers)
  {
    if readers == 0 || |open| < readers then open else open[..readers - 1]
  }

  /** `MultiRetrieveVisitor::selectDatabase`: the current database stays; an open one becomes
      the one used last; one that does not exist is refused; any other is opened, with no
      index selected, and databases that are closed for it forget theirs. */
  function SelectDatabase(w: World, s: Reader, key: Dict): Option<Reader>
  {
    if s.db == Some(key) then Some(s)
    else if key in s.open then Some(s.(db := Some(key), open := [key] + Without(s.open, key)))
    else if key !in w.store then None
    else
      var staying := Staying(s.open, w.readers);
      Some(s.(db := Some(key), open := [key] + staying, selected := map k | k in s.selected && k in staying :: s.selected[k]))
  }

  /** `TocCatalogueReader::selectIndex`: the key selected last is not looked up again. */
  function SelectIndex(w: World, s: Reader, key: Dict): (Reader, bool)
    requires s.db.Some?
  {
    var db := s.db.value;
    var selected := if db in s.selected then s.selected[db] else map[];
    if key == selected then (s, true)
    else (s.(selected := s.selected[db := key]), db in w.store && key in w.store[db])
  }

  /** `IndexAxis::contains`. */
  predicate Contains(axes: map<string, set<string>>, toKey: ToKey, registry: Registry, key: Dict)
  {
    forall k :: k in axes ==>
      k in key && (key[k] in axes[k] || Canonical(toKey, registry, (k, key[k])) in axes[k])
  }

  function Simplified(key: Dict): Dict
  {
    map k | k in key && key[k] != "" :: key[k]
  }

  /** `MultiRetrieveVisitor::selectDatum` with the lookup of the selected index. */
  function SelectDatum(w: World, s: Reader, registry: Registry, ps: seq<Pair>): Reader
    requires s.db.Some?
  {
    var index := CurrentIndex(w, s);
    var key := DictOf(ps);
    var fingerprint := Fingerprint(w.toKey, registry, ps);
    if index.Some? && Contains(index.value.axes, w.toKey, registry, key) && fingerprint in index.value.entries then
      s.(found := s.found + [Element(s.db.value, s.selected[s.db.value], Simplified(key), index.value.entries[fingerprint])])
    else s
  }

  /** The walk from predicate `cur` of a rule on; `done` is already pushed. */
  function ReadFrom(w: World, registry: Registry, rule: Rule, cur: nat, depth: nat, done: seq<Pair>, s: Reader): Reader
    requires depth <= 2 && cur <= |rule.predicates|
    decreases 3 - depth, 1, |rule.predicates| - cur, 1, 0
  {
    if s.threw.Some? then s
    else if cur == |rule.predicates| then Reach(w, registry, rule, depth, done, s)
    else ReadValues(w, registry, rule, cur, depth, done, Candidates(w, s, registry, rule.predicates[cur]), s)
  }

  /** The loop over the values of one predicate. */
  function ReadValues(w: World, registry: Registry, rule: Rule, cur: nat, depth: nat, done: seq<Pair>, values: seq<string>, s: Reader): Reader
    requires depth <= 2 && cur < |rule.predicates|
    decreases 3 - depth, 1, |rule.predicates| - cur, 0, |values|
  {
    if values == [] || s.threw.Some? then s
    else
      var p := rule.predicates[cur];
      var after := if p.matcher.Accepts(values[0])
                   then ReadFrom(w, registry, rule, cur + 1, depth, done + [(p.keyword, values[0])], s) else s;
      ReadValues(w, registry, rule, cur, depth, done, values[1..], after)
  }

  /** The end of the predicates of a rule, with the pairs `ps`. */
  function Reach(w: World, registry: Registry, rule: Rule, depth: nat, ps: seq<Pair>, s: Reader): Reader
    requires depth <= 2
    decreases 3 - depth, 0, 0, 0, 0
  {
    if s.threw.Some? then s
    else if (rule.rules == []) != (depth == 2) then s.(threw := Some(RaggedRule))
    else if depth == 0 then
      match SelectDatabase(w, s, DictOf(ps))
      case None => s
      case Some(entered) => ReadSecond(w, DictOf(ps), entered)
    else if s.db.None? then s.(threw := Some(NoDatabase))
    else if depth == 1 then
      var (entered, ok) := SelectIndex(w, s, DictOf(ps));
      if ok then ReadRules(w, registry, rule.rules, 2, entered) else entered
    else SelectDatum(w, s, registry, ps)
  }

  function ReadSecond(w: World, key: Dict, s: Reader): Reader
    decreases 2, 3, 0, 0, 0
  {
    var schema := w.site.schemaOf(key);
    match FirstMatch(schema.rules, key)
    case None => s.(threw := Some(NoDatabaseRule))
    case Some(dbRule) => ReadRules(w, [dbRule.types, schema.types], dbRule.rules, 1, s)
  }

  function ReadRules(w: World, above: Registry, rules: seq<Rule>, depth: nat, s: Reader): Reader
    requires depth <= 2
    decreases 3 - depth, 2, |rules|, 0, 0
  {
    if rules == [] || s.threw.Some? then s
    else ReadRules(w, above, rules[1..], depth, ReadFrom(w, [rules[0].types] + above, rules[0], 0, depth, [], s))
  }

  /** What earlier retrievals left behind: open databases, each with an index selected. */
  datatype Opened = Opened(open: seq<Dict>, selected: map<Dict, Dict>)

  function Fresh(before: Opened): Reader
  {
    Reader(None, before.open, before.selected, [], None)
  }

  /** `Schema::expand` on a request with a new visitor, whatever databases are open. */
  function Retrieve(w: World, before: Opened): Reader
  {
    ReadRules(w, [w.site.master.types], w.site.master.rules, 0, Fresh(before))
  }
}
