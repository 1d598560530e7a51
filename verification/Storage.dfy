/** The two stores behind the service: the Postgres table, and Redis as a map of entries with
    deadlines whose calls may fail with or without having taken effect. */
module Storage {
  import opened Common

  datatype Error = UrlNotFound | UrlExists | DbError

  /** What Save, Get and Delete of a storage answer. */
  datatype Response = Stored | Removed | Found(url: string) | Failed(error: Error)

  /** The url table: alias is UNIQUE, so it is a map. */
  type Rows = map<string, string>

  function Insert(rows: Rows, url: string, alias: string, fault: bool): (Rows, Response) {
    if fault then (rows, Failed(DbError))
    else if alias in rows then (rows, Failed(UrlExists))
    else (rows[alias := url], Stored)
  }

  function Select(rows: Rows, alias: string, fault: bool): Response {
    if fault then Failed(DbError)
    else if alias in rows then Found(rows[alias])
    else Failed(UrlNotFound)
  }

  function Remove(rows: Rows, alias: string, fault: bool): (Rows, Response) {
    if fault then (rows, Failed(DbError))
    else if alias in rows then (rows - {alias}, Removed)
    else (rows, Failed(UrlNotFound))
  }

  /** Postgres.  `fault` is a query that errors without effect. */
  class PostgresRepo {
    var rows: Rows

    constructor ()
      ensures rows == map[]
    {
      rows := map[];
    }

    method Save(url: string, alias: string, fault: bool) returns (r: Response)
      modifies this
      ensures (rows, r) == Insert(old(rows), url, alias, fault)
    {
      if fault {
        return Failed(DbError);
      }
      if alias in rows {
        return Failed(UrlExists);
      }
      rows := rows[alias := url];
      return Stored;
    }

    method Get(alias: string, fault: bool) returns (r: Response)
      ensures r == Select(rows, alias, fault)
    {
      if fault {
        return Failed(DbError);
      }
      if alias !in rows {
        return Failed(UrlNotFound);
      }
      return Found(rows[alias]);
    }

    method Delete(alias: string, fault: bool) returns (r: Response)
      modifies this
      ensures (rows, r) == Remove(old(rows), alias, fault)
    {
      if fault {
        return Failed(DbError);
      }
      var affected := if alias in rows then 1 else 0;
      assert alias !in rows ==> rows - {alias} == rows;
      rows := rows - {alias};
      if affected != 1 {
        return Failed(UrlNotFound);
      }
      return Removed;
    }
  }

  datatype Entry = Entry(url: string, deadline: int)

  type Entries = map<string, Entry>

  /** How a Redis call ends: answered, or failed before or after it took effect. */
  datatype Outcome = Answered | FailedBefore | FailedAfter

  predicate Live(entries: Entries, alias: string, now: int) {
    alias in entries && now < entries[alias].deadline
  }

  function AfterSet(entries: Entries, alias: string, entry: Entry, outcome: Outcome): Entries {
    if outcome.FailedBefore? then entries else entries[alias := entry]
  }

  function AfterDel(entries: Entries, alias: string, outcome: Outcome): Entries {
    if outcome.FailedBefore? then entries else entries - {alias}
  }

  class Redis {
    var entries: Entries

    constructor ()
      ensures entries == map[]
    {
      entries := map[];
    }

    /** None is redis.Nil. */
    method Get(alias: string, now: int, outcome: Outcome) returns (value: Option<string>, ok: bool)
      ensures ok == outcome.Answered?
      ensures ok ==> value == if Live(entries, alias, now) then Some(entries[alias].url) else None
    {
      if !outcome.Answered? {
        return None, false;
      }
      if alias in entries && now < entries[alias].deadline {
        return Some(entries[alias].url), true;
      }
      return None, true;
    }

    method Set(alias: string, url: string, now: int, ttl: int, outcome: Outcome) returns (ok: bool)
      modifies this
      ensures ok == outcome.Answered?
      ensures entries == AfterSet(old(entries), alias, Entry(url, now + ttl), outcome)
    {
      if !outcome.FailedBefore? {
        entries := entries[alias := Entry(url, now + ttl)];
      }
      return outcome.Answered?;
    }

    method Del(alias: string, outcome: Outcome) returns (ok: bool)
      modifies this
      ensures ok == outcome.Answered?
      ensures entries == AfterDel(old(entries), alias, outcome)
    {
      if !outcome.FailedBefore? {
        entries := entries - {alias};
      }
      return outcome.Answered?;
    }
  }
}
