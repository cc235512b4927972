/**
 * The `cache` table (main.py lines 47-51) seen through one database session:
 * `key` is the primary key, `value` the base64 text of the trimmed audio.
 */
module CacheStore {
  import opened Types

  class CacheDb {
    /** The rows of the table, by primary key. */
    var rows: map<string, string>

    constructor (initial: map<string, string>)
      ensures rows == initial
    {
      rows := initial;
    }

    /** `db.get(Cache, key)`: the row's value, or None when no row has the key. */
    method Get(key: string) returns (value: Option<string>)
      ensures value.Some? <==> key in rows
      ensures value.Some? ==> value.value == rows[key]
    {
      if key in rows {
        value := Some(rows[key]);
      } else {
        value := None;
      }
    }

    /** `db.add(Cache(key=key, value=value))` followed by `db.commit()`. A
        second row with the same primary key is refused (the commit raises an
        integrity error), so a stored value is never overwritten. */
    method Add(key: string, value: string) returns (inserted: bool)
      modifies this
      ensures inserted <==> key !in old(rows)
      ensures rows == if inserted then old(rows)[key := value] else old(rows)
    {
      inserted := key !in rows;
      if inserted {
        rows := rows[key := value];
      }
    }
  }
}
