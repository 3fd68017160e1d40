/** The archive as the expansions see it: per database key and index key one index,
    with its axes and its entries by fingerprint. */
module Stores {
  import opened Keys
  import opened Rules

  type Data = string

  /** `IndexAxis` and the key-to-field map of an index. */
  datatype Index = Index(axes: map<string, set<string>>, entries: map<string, Data>)

  type Database = map<Dict, Index>
  type Store = map<Dict, Database>

  const EMPTY_INDEX := Index(map[], map[])

  /** `Key::valuesToString`: the canonical values in push order, separated by colons. */
  function Fingerprint(toKey: ToKey, registry: Registry, ps: seq<Pair>): string
  {
    if ps == [] then ""
    else if |ps| == 1 then Canonical(toKey, registry, ps[0])
    else Canonical(toKey, registry, ps[0]) + ":" + Fingerprint(toKey, registry, ps[1..])
  }

  /** `IndexAxis::insert`: every keyword's axis gains the canonical value. */
  function InsertAxes(axes: map<string, set<string>>, toKey: ToKey, registry: Registry, key: Dict): map<string, set<string>>
  {
    map k | k in axes.Keys + key.Keys ::
      (if k in axes then axes[k] else {}) +
      (if k in key then {Canonical(toKey, registry, (k, key[k]))} else {})
  }

  /** `IndexBase::put`. */
  function PutIndex(index: Index, toKey: ToKey, registry: Registry, ps: seq<Pair>, data: Data): Index
  {
    Index(InsertAxes(index.axes, toKey, registry, DictOf(ps)),
          index.entries[Fingerprint(toKey, registry, ps) := data])
  }

  function IndexAt(store: Store, db: Dict, idx: Dict): Index
  {
    if db in store && idx in store[db] then store[db][idx] else EMPTY_INDEX
  }

  /** Archiving one datum into the selected index of the selected database. */
  function Put(store: Store, db: Dict, idx: Dict, toKey: ToKey, registry: Registry, ps: seq<Pair>, data: Data): Store
  {
    var database := if db in store then store[db] else map[];
    store[db := database[idx := PutIndex(IndexAt(store, db, idx), toKey, registry, ps, data)]]
  }
}
