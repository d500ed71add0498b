/** `utils/_db.py`: a single untyped in-memory map with dict-like accessors.
    `update`, `[key]` and `del [key]` raise KeyError for an unknown key, while
    `get` and `pop` fall back to a default. */
module Db {
  import opened Wrappers
  import opened Keys

  datatype Db<V> = Db(entries: map<Key, V>)

  function Add<V>(db: Db<V>, value: V): (r: (Db<V>, Key))
    ensures r.1 !in db.entries
    ensures r.0.entries == db.entries[r.1 := value]
  {
    var key := FreshKey(db.entries.Keys);
    (Db(db.entries[key := value]), key)
  }

  /** `set` and `__setitem__`: insert or overwrite, whether or not the key exists. */
  function Set<V>(db: Db<V>, key: Key, value: V): (r: Db<V>)
    ensures key in r.entries && r.entries[key] == value
    ensures r.entries.Keys == db.entries.Keys + {key}
    ensures forall k :: k in db.entries && k != key ==> r.entries[k] == db.entries[k]
  {
    Db(db.entries[key := value])
  }

  function Update<V>(db: Db<V>, key: Key, value: V): (r: Result<Db<V>>)
    ensures r.Err? <==> key !in db.entries
    ensures r.Err? ==> r.error == KeyError
    ensures r.Ok? ==> r.value == Set(db, key, value) && r.value.entries.Keys == db.entries.Keys
  {
    if key !in db.entries then Err(KeyError) else Ok(Set(db, key, value))
  }

  /** `get(key, default)`; the store itself is not touched. */
  function Get<V>(db: Db<V>, key: Key, default: V): (r: V)
    ensures key in db.entries ==> r == db.entries[key]
    ensures key !in db.entries ==> r == default
  {
    if key in db.entries then db.entries[key] else default
  }

  /** `pop(key, default)`: the value and the store without it, or the default
      and the unchanged store. */
  function Pop<V>(db: Db<V>, key: Key, default: V): (r: (V, Db<V>))
    ensures key in db.entries ==> r.0 == db.entries[key] && r.1.entries == db.entries - {key}
    ensures key !in db.entries ==> r == (default, db)
    ensures key !in r.1.entries
  {
    if key in db.entries then (db.entries[key], Db(db.entries - {key})) else (default, db)
  }

  /** `__getitem__`. */
  function GetItem<V>(db: Db<V>, key: Key): (r: Result<V>)
    ensures r.Err? <==> key !in db.entries
    ensures r.Err? ==> r.error == KeyError
    ensures r.Ok? ==> r.value == db.entries[key]
  {
    if key !in db.entries then Err(KeyError) else Ok(db.entries[key])
  }

  /** `__delitem__`. */
  function DelItem<V>(db: Db<V>, key: Key): (r: Result<Db<V>>)
    ensures r.Err? <==> key !in db.entries
    ensures r.Err? ==> r.error == KeyError
    ensures r.Ok? ==> r.value.entries == db.entries - {key}
  {
    if key !in db.entries then Err(KeyError) else Ok(Db(db.entries - {key}))
  }

  /** `__contains__`. */
  predicate Contains<V>(db: Db<V>, key: Key) {
    key in db.entries
  }

  /** What `add` stores can be read back, found, and popped off again,
      leaving the store as it was. */
  lemma AddRoundTrip<V>(db: Db<V>, value: V, default: V)
    ensures var (db', key) := Add(db, value);
            && Contains(db', key)
            && GetItem(db', key) == Ok(value)
            && Get(db', key, default) == value
            && Pop(db', key, default) == (value, db)
            && DelItem(db', key) == Ok(db)
  {
    var (db', key) := Add(db, value);
    assert db'.entries - {key} == db.entries;
  }

  /** `get` and `pop` agree on the value they return; only `pop` removes it. */
  lemma PopAgreesWithGet<V>(db: Db<V>, key: Key, default: V)
    ensures Pop(db, key, default).0 == Get(db, key, default)
    ensures !Contains(Pop(db, key, default).1, key)
    ensures forall k :: k != key ==> (Contains(Pop(db, key, default).1, k) <==> Contains(db, k))
  {
  }
}
