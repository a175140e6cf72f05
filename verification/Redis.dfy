// A key-value store whose entries expire. Every command runs at one instant and first loses the
// entries whose time is up.
module Redis {
  import opened Common

  datatype Entry<+V> = Entry(value: V, expires: int)

  type Store<V> = map<string, Entry<V>>

  // The store as a command at `now` finds it.
  function At<V>(store: Store<V>, now: int): Store<V> {
    map k | k in store && now < store[k].expires :: store[k]
  }

  function Get<V>(store: Store<V>, key: string, now: int): Option<V> {
    if key in store && now < store[key].expires then Some(store[key].value) else None
  }

  class RedisDb<V> {
    var store: Store<V>

    method Exists(key: string, now: int) returns (found: bool)
      modifies this
      ensures store == At(old(store), now)
      ensures found == Get(old(store), key, now).Some?
    {
      store := At(store, now);
      return key in store;
    }

    method Fetch(key: string, now: int) returns (found: Option<V>)
      modifies this
      ensures store == At(old(store), now)
      ensures found == Get(old(store), key, now)
    {
      store := At(store, now);
      return if key in store then Some(store[key].value) else None;
    }

    method Delete(key: string)
      modifies this
      ensures store == old(store) - {key}
    {
      store := store - {key};
    }

    // SETEX, or HSET followed by EXPIRE on a fresh key.
    method SetEx(key: string, value: V, expires: int)
      modifies this
      ensures store == old(store)[key := Entry(value, expires)]
    {
      store := store[key := Entry(value, expires)];
    }

    // A write that keeps the key's time to live, as HINCRBY does.
    method Update(key: string, value: V)
      requires key in store
      modifies this
      ensures store == old(store)[key := Entry(value, old(store)[key].expires)]
    {
      store := store[key := Entry(value, store[key].expires)];
    }
  }
}
