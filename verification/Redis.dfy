/** internal/redis/redis.go: the session store, with keys that expire. */
module Redis {
  import opened Go
  import opened RedisKeys

  const HOUR: int := 60 * 60 * 1_000_000_000

  datatype Entry = Entry(endpoint: string, expiry: int)
  type Database = map<string, Entry>

  /** An expired key is gone for every command. */
  predicate Live(db: Database, now: int, key: string) {
    key in db && now < db[key].expiry
  }

  function Set(db: Database, now: int, key: string, endpoint: string): Database {
    db[key := Entry(endpoint, now + HOUR)]
  }

  function Expire(db: Database, now: int, key: string): Database {
    if Live(db, now, key) then db[key := db[key].(expiry := now + HOUR)] else db
  }

  /** What GET answers; Nil is redis.Nil. */
  function Get(db: Database, now: int, key: string): Ptr<string> {
    if Live(db, now, key) then Ref(db[key].endpoint) else Nil
  }

  /** Commands that fail during a call. */
  datatype Faults = Faults(keys: bool, get: set<string>, del: set<string>, write: set<string>, expire: set<string>)

  const NONE: Faults := Faults(false, {}, {}, {}, {})

  /** The entries Clean removes: live, in the namespace, and bound to no listed endpoint. */
  ghost predicate Stale(prefix: string, db: Database, now: int, endpoints: seq<string>, key: string) {
    Live(db, now, key) && InNamespace(prefix, key) && db[key].endpoint !in endpoints
  }

  /** One manager and the database it talks to, while nobody else does. */
  class Manager {
    const prefix: string
    var db: Database

    constructor (prefix: string)
      ensures this.prefix == prefix && db == map[]
    {
      this.prefix := prefix;
      db := map[];
    }

    /** Publishes the endpoint of a session for an hour; a failure is only logged. */
    method AddCookie(jsession: string, endpoint: string, now: int, faults: Faults)
      modifies this
      ensures var key := NamespacedKey(prefix, jsession);
              db == if key in faults.write then old(db) else old(db)[key := Entry(endpoint, now + 3_600_000_000_000)]
    {
      var key := NamespacedKey(prefix, jsession);
      if key !in faults.write {
        db := Set(db, now, key, endpoint);
      }
    }

    /** Looks a session up, and on request renews its hour. A missing session is the empty
        endpoint. */
    method GetEndpoint(jsession: string, updateExpire: bool, now: int, faults: Faults)
      returns (endpoint: string, err: bool)
      modifies this
      ensures var key := NamespacedKey(prefix, jsession);
              && (err <==> key in faults.get)
              && endpoint == (if !err && Live(old(db), now, key) then old(db)[key].endpoint else "")
              && db == if !err && updateExpire && key !in faults.expire && Live(old(db), now, key)
                       then old(db)[key := old(db)[key].(expiry := now + 3_600_000_000_000)] else old(db)
    {
      var key := NamespacedKey(prefix, jsession);
      if key in faults.get {
        return "", true;
      }
      if !Live(db, now, key) {
        return "", false;
      }
      endpoint, err := db[key].endpoint, false;
      if updateExpire && key !in faults.expire {
        db := Expire(db, now, key);
      }
    }

    /** Reads every entry of the namespace whose value can be read. */
    method GetAllEntries(now: int, faults: Faults) returns (entries: map<string, string>, err: bool)
      modifies this
      ensures db == old(db) && (err <==> faults.keys)
      ensures !err ==> forall k :: k in entries <==> Live(db, now, k) && InNamespace(prefix, k) && k !in faults.get
      ensures !err ==> forall k :: k in entries ==> k in db && entries[k] == db[k].endpoint
    {
      entries := map[];
      if faults.keys {
        return map[], true;
      }
      err := false;
      var todo := set k | k in db && now < db[k].expiry && InNamespace(prefix, k);
      ghost var all := todo;
      while todo != {}
        invariant db == old(db) && todo <= all
        invariant forall k :: k in entries <==> k in all - todo && k !in faults.get
        invariant forall k :: k in entries ==> k in db && entries[k] == db[k].endpoint
        decreases |todo|
      {
        var cookie :| cookie in todo;
        RenamespacingIsIdentity(prefix, cookie);
        var endpoint, failed := GetEndpoint(cookie, false, now, faults);
        if !failed {
          entries := entries[cookie := endpoint];
        }
        todo := todo - {cookie};
      }
    }

    /** Removes exactly the stale entries whose commands do not fail, and nothing else. */
    method Clean(endpoints: seq<string>, now: int, faults: Faults) returns (err: bool)
      modifies this
      ensures err <==> faults.keys
      ensures err ==> db == old(db)
      ensures !err ==> forall k :: k in db <==>
                k in old(db) && !(Stale(prefix, old(db), now, endpoints, k) && k !in faults.get && k !in faults.del)
      ensures forall k :: k in db ==> db[k] == old(db)[k]
    {
      var entries;
      entries, err := GetAllEntries(now, faults);
      if err {
        return;
      }
      var todo := entries.Keys;
      while todo != {}
        invariant todo <= entries.Keys
        invariant forall k :: k in db <==>
                    k in old(db) && !(k in entries.Keys - todo && entries[k] !in endpoints && k !in faults.del)
        invariant forall k :: k in db ==> db[k] == old(db)[k]
        decreases |todo|
      {
        var k :| k in todo;
        if entries[k] !in endpoints && k !in faults.del {
          db := db - {k};
        }
        todo := todo - {k};
      }
    }
  }
}
