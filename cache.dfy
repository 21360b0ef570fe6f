/**
 * The key/value cache that keeps the crawl state between runs: named tables
 * opened lazily from one backing file, each a map from key to value. The
 * backing file is modelled by the map `data` it holds.
 */
module KeyValueCache {
  import opened Common
  import opened Records

  /** What the two tables the crawler uses hold. */
  datatype Value = HistoryValue(history: CrawlHistory) | DateValue(date: int)

  const CrawlHistoryTable := "crawl_history"
  const InfoTable := "info"
  const LastCrawlDateKey := "last_crawl_date"

  /** The contents of the backing file: table name to (key to value). */
  type Tables = map<string, map<string, Value>>

  /** The crawl state the two tables hold, as the crawler reads it. */
  datatype Store = Store(histories: map<string, CrawlHistory>, cursor: Option<int>)

  /** A table that has never been written reads as empty. */
  function TableOf(data: Tables, table: string): map<string, Value>
  {
    if table in data then data[table] else map[]
  }

  /** Reading `key` from `table`: the stored value, or None when the key is absent. */
  function Lookup(data: Tables, table: string, key: string): (r: Option<Value>)
    ensures r.Some? <==> table in data && key in data[table]
  {
    var t := TableOf(data, table);
    if key in t then Some(t[key]) else None
  }

  /** Writing `value` under `key` in `table`. */
  function Put(data: Tables, table: string, key: string, value: Value): (r: Tables)
    ensures r.Keys == data.Keys + {table}
  {
    data[table := TableOf(data, table)[key := value]]
  }

  /** After writing a value, reading the same table and key gives it back. */
  lemma GetAfterSet(data: Tables, table: string, key: string, value: Value)
    ensures Lookup(Put(data, table, key, value), table, key) == Some(value)
  {
  }

  /** Writing one table and key leaves every other table and key as it was. */
  lemma SetIsolated(data: Tables, table: string, key: string, value: Value, table': string, key': string)
    requires table' != table || key' != key
    ensures Lookup(Put(data, table, key, value), table', key') == Lookup(data, table', key')
  {
  }

  /** Crawl histories and the last crawl date are kept in different tables. */
  lemma TablesDistinct()
    ensures CrawlHistoryTable != InfoTable
  {
    assert CrawlHistoryTable[0] != InfoTable[0];
  }

  /** The crawl history table holds histories and the info table's cursor is a date. */
  predicate TypedData(data: Tables)
  {
    && (forall k :: k in TableOf(data, CrawlHistoryTable) ==> TableOf(data, CrawlHistoryTable)[k].HistoryValue?)
    && (LastCrawlDateKey in TableOf(data, InfoTable) ==> TableOf(data, InfoTable)[LastCrawlDateKey].DateValue?)
  }

  /** The crawl state the two tables hold. */
  function StoreOf(data: Tables): Store
    requires TypedData(data)
  {
    var h := TableOf(data, CrawlHistoryTable);
    Store(
      map k | k in h :: h[k].history,
      match Lookup(data, InfoTable, LastCrawlDateKey)
      case Some(v) => Some(v.date)
      case None => None)
  }

  /** Writing a history records it for its content id and changes nothing else of the crawl state. */
  lemma PutHistory(data: Tables, contentId: string, history: CrawlHistory)
    requires TypedData(data)
    ensures TypedData(Put(data, CrawlHistoryTable, contentId, HistoryValue(history)))
    ensures StoreOf(Put(data, CrawlHistoryTable, contentId, HistoryValue(history))) ==
      StoreOf(data).(histories := StoreOf(data).histories[contentId := history])
  {
    var data' := Put(data, CrawlHistoryTable, contentId, HistoryValue(history));
    TablesDistinct();
    assert TableOf(data', InfoTable) == TableOf(data, InfoTable);
  }

  /** Writing the last crawl date sets the cursor and changes nothing else of the crawl state. */
  lemma PutCursor(data: Tables, date: int)
    requires TypedData(data)
    ensures TypedData(Put(data, InfoTable, LastCrawlDateKey, DateValue(date)))
    ensures StoreOf(Put(data, InfoTable, LastCrawlDateKey, DateValue(date))) == StoreOf(data).(cursor := Some(date))
  {
    var data' := Put(data, InfoTable, LastCrawlDateKey, DateValue(date));
    TablesDistinct();
    assert TableOf(data', CrawlHistoryTable) == TableOf(data, CrawlHistoryTable);
  }

  class Cache {
    const fileName: string
    /** The contents of the backing file. */
    var data: Tables
    /** The handle of every table opened so far. */
    var tables: map<string, nat>
    /** How many table handles have been created. */
    var openCount: nat
    /** The handles that have been closed. */
    var closed: set<nat>

    /** Every open table has its own handle, created in order. */
    ghost predicate Valid()
      reads this
    {
      && (forall t :: t in tables ==> tables[t] < openCount)
      && (forall t, u :: t in tables && u in tables && t != u ==> tables[t] != tables[u])
    }

    /** The crawl history table holds histories and the info table's cursor is a date. */
    predicate Typed()
      reads this`data
    {
      TypedData(data)
    }

    /** The crawl state the cache holds. */
    function Snapshot(): Store
      reads this`data
      requires Typed()
    {
      StoreOf(data)
    }

    /** A cache over a backing file that already holds `persisted`, with no table open. */
    constructor (fileName: string, persisted: Tables)
      ensures Valid()
      ensures this.fileName == fileName && data == persisted
      ensures tables == map[] && openCount == 0 && closed == {}
    {
      this.fileName := fileName;
      data := persisted;
      tables := map[];
      openCount := 0;
      closed := {};
    }

    /** Closes every table opened so far. */
    method Close()
      modifies this`closed
      ensures closed == old(closed) + tables.Values
    {
      var pending := tables.Values;
      while pending != {}
        invariant closed + pending == old(closed) + tables.Values
        decreases pending
      {
        var h :| h in pending;
        closed := closed + {h};
        pending := pending - {h};
      }
    }

    /** The handle of `table`, opening it on first use and reusing it afterwards. */
    method GetDict(table: string) returns (h: nat)
      requires Valid()
      modifies this`tables, this`openCount
      ensures Valid()
      ensures table in tables && h == tables[table]
      ensures table in old(tables) ==> tables == old(tables) && openCount == old(openCount)
      ensures table !in old(tables) ==> tables == old(tables)[table := old(openCount)] && openCount == old(openCount) + 1
    {
      if table !in tables {
        tables := tables[table := openCount];
        openCount := openCount + 1;
      }
      h := tables[table];
    }

    /** The value under `key` in `table`, or None when there is none. */
    method Get(table: string, key: string) returns (v: Option<Value>)
      requires Valid()
      modifies this`tables, this`openCount
      ensures Valid()
      ensures v == Lookup(data, table, key)
      ensures tables.Keys == old(tables).Keys + {table}
      ensures forall t :: t in old(tables) ==> tables[t] == old(tables)[t]
    {
      var _ := GetDict(table);
      if key !in TableOf(data, table) {
        return None;
      }
      v := Some(data[table][key]);
    }

    /** Stores `value` under `key` in `table`, changing nothing else. */
    method Set(table: string, key: string, value: Value)
      requires Valid()
      modifies this`tables, this`openCount, this`data
      ensures Valid()
      ensures data == Put(old(data), table, key, value)
      ensures tables.Keys == old(tables).Keys + {table}
      ensures forall t :: t in old(tables) ==> tables[t] == old(tables)[t]
    {
      var _ := GetDict(table);
      data := Put(data, table, key, value);
    }

    method GetCrawlHistory(contentId: string) returns (h: Option<CrawlHistory>)
      requires Valid() && Typed()
      modifies this`tables, this`openCount
      ensures Valid()
      ensures contentId in Snapshot().histories ==> h == Some(Snapshot().histories[contentId])
      ensures contentId !in Snapshot().histories ==> h == None
    {
      var v := Get(CrawlHistoryTable, contentId);
      match v {
        case None => h := None;
        case Some(x) => h := Some(x.history);
      }
    }

    method SetCrawlHistory(contentId: string, history: CrawlHistory)
      requires Valid() && Typed()
      modifies this`tables, this`openCount, this`data
      ensures Valid() && Typed()
      ensures Snapshot() == old(Snapshot()).(histories := old(Snapshot()).histories[contentId := history])
      ensures forall t :: t != CrawlHistoryTable ==> TableOf(data, t) == TableOf(old(data), t)
    {
      PutHistory(data, contentId, history);
      Set(CrawlHistoryTable, contentId, HistoryValue(history));
      TablesDistinct();
    }

    method GetLastCrawlDate() returns (d: Option<int>)
      requires Valid() && Typed()
      modifies this`tables, this`openCount
      ensures Valid()
      ensures d == Snapshot().cursor
    {
      var v := Get(InfoTable, LastCrawlDateKey);
      match v {
        case None => d := None;
        case Some(x) => d := Some(x.date);
      }
    }

    method SetLastCrawlDate(date: int)
      requires Valid() && Typed()
      modifies this`tables, this`openCount, this`data
      ensures Valid() && Typed()
      ensures Snapshot() == old(Snapshot()).(cursor := Some(date))
      ensures forall t :: t != InfoTable ==> TableOf(data, t) == TableOf(old(data), t)
    {
      PutCursor(data, date);
      Set(InfoTable, LastCrawlDateKey, DateValue(date));
      TablesDistinct();
    }
  }
}
