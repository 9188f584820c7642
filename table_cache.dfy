/**
 * TableCache: a whole-table cache for small tables, keyed by primary-key
 * value and filled through JdbcTemplate. The database is a function from SQL
 * text to the rows it returns, each row already mapped to a bean (null when
 * the mapper gives null); the model class's fields are a list of records.
 */
module TableCaches {
  import opened JavaLang
  import opened SqlNames

  /** The rows a SQL text returns, mapped by BeanPropertyRowMapper. */
  type Db<T> = string -> seq<Option<T>>

  /** A declared field of the model class: its name and whether it carries @PrimaryKey. */
  datatype FieldInfo = FieldInfo(name: string, primaryKey: bool)

  /** JdbcTemplate.queryForObject: exactly one row, or an exception saying how many there were. */
  function QueryForObject<T>(db: Db<T>, sql: string): (r: Result<Option<T>>)
    ensures r.Ok? <==> |db(sql)| == 1
    ensures r.Ok? ==> r.value == db(sql)[0]
    ensures |db(sql)| == 0 ==> r == Throws(EmptyResultDataAccessException)
    ensures |db(sql)| > 1 ==> r == Throws(IncorrectResultSizeDataAccessException)
  {
    var rows := db(sql);
    if |rows| == 0 then Throws(EmptyResultDataAccessException)
    else if |rows| > 1 then Throws(IncorrectResultSizeDataAccessException)
    else Ok(rows[0])
  }

  /** The query of one row by primary key. */
  function KeySql(tableName: string, pkName: string, keyText: string): string
  {
    "select * from " + tableName + " where " + pkName + "=" + keyText
  }

  /** The keys under which a map holds a given value. */
  ghost function KeysWith<K, V>(m: map<K, V>, v: V): set<K>
  {
    set k | k in m && m[k] == v
  }

  /** Taking one key out of a map takes it out of the keys holding its value, and no other. */
  lemma KeysWithout<K, V>(m: map<K, V>, k: K)
    requires k in m
    ensures forall v :: |KeysWith(m, v)| == |KeysWith(m - {k}, v)| + (if m[k] == v then 1 else 0)
  {
    forall v ensures |KeysWith(m, v)| == |KeysWith(m - {k}, v)| + (if m[k] == v then 1 else 0) {
      if m[k] == v {
        assert KeysWith(m, v) == KeysWith(m - {k}, v) + {k};
      } else {
        assert KeysWith(m, v) == KeysWith(m - {k}, v);
      }
    }
  }

  /** Some key holds a value exactly when the keys holding it are not none. */
  lemma KeysWithSome<K, V>(m: map<K, V>)
    ensures forall v :: |KeysWith(m, v)| > 0 <==> exists k :: k in m && m[k] == v
  {
    forall v ensures |KeysWith(m, v)| > 0 <==> exists k :: k in m && m[k] == v {
      if |KeysWith(m, v)| > 0 {
        var k :| k in KeysWith(m, v);
      } else {
        assert forall k :: k in m && m[k] == v ==> k in KeysWith(m, v);
      }
    }
  }

  /** Map.values(): every value of the map, as many times as there are keys holding it. */
  ghost function Values<K, V(!new)>(m: map<K, V>): (r: multiset<V>)
    ensures forall v :: r[v] == |KeysWith(m, v)|
    decreases |m|
  {
    if |m| == 0 then
      assert forall v :: KeysWith(m, v) == {};
      multiset{}
    else
      var k :| k in m;
      var rest := m - {k};
      assert m.Keys == rest.Keys + {k};
      KeysWithout(m, k);
      multiset{m[k]} + Values(rest)
  }

  /** The query of the whole table. */
  function AllSql(tableName: string): string
  {
    "select * from " + tableName
  }

  /** The class name after its last '.'. */
  function SimpleName(className: string): (r: string)
    ensures Lacks(r, '.')
    ensures |r| <= |className| && r == className[|className| - |r|..]
    ensures Lacks(className, '.') ==> r == className
  {
    className[LastIndexOf(className, '.') + 1..]
  }

  /** The first field carrying @PrimaryKey, if any. */
  function FirstPrimaryKey(fields: seq<FieldInfo>): (r: Option<string>)
    ensures r.None? <==> forall i :: 0 <= i < |fields| ==> !fields[i].primaryKey
    ensures r.Some? ==>
      exists i :: && 0 <= i < |fields| && fields[i].primaryKey && fields[i].name == r.value
                  && forall j :: 0 <= j < i ==> !fields[j].primaryKey
  {
    if fields == [] then None
    else if fields[0].primaryKey then Some(fields[0].name)
    else
      var r := FirstPrimaryKey(fields[1..]);
      assert forall i :: 1 <= i < |fields| ==> fields[i] == fields[1..][i - 1];
      r
  }

  /** The cache refresh builds from non-null rows: each row under its primary-key value, later rows winning. */
  function Keyed<K(==), T>(rows: seq<Option<T>>, pkValue: T -> Option<K>): map<Option<K>, T>
  {
    if rows == [] then map[]
    else
      var m := Keyed(rows[..|rows| - 1], pkValue);
      var row := rows[|rows| - 1];
      if row.Some? then m[pkValue(row.value) := row.value] else m
  }

  /** Every cached row is a row of the table, under its own primary-key value. */
  lemma {:induction false} KeyedEntries<K, T>(rows: seq<Option<T>>, pkValue: T -> Option<K>)
    ensures forall k :: k in Keyed(rows, pkValue) ==>
      Some(Keyed(rows, pkValue)[k]) in rows && pkValue(Keyed(rows, pkValue)[k]) == k
  {
    if rows != [] {
      KeyedEntries(rows[..|rows| - 1], pkValue);
      assert forall x :: x in rows[..|rows| - 1] ==> x in rows;
    }
  }

  /** Every non-null row is cached under its primary-key value, and the last row with that value is the one kept. */
  lemma {:induction false} KeyedKeys<K, T>(rows: seq<Option<T>>, pkValue: T -> Option<K>, i: int)
    requires 0 <= i < |rows| && rows[i].Some?
    requires forall j :: i < j < |rows| && rows[j].Some? ==> pkValue(rows[j].value) != pkValue(rows[i].value)
    ensures pkValue(rows[i].value) in Keyed(rows, pkValue)
    ensures Keyed(rows, pkValue)[pkValue(rows[i].value)] == rows[i].value
  {
    if i < |rows| - 1 {
      KeyedKeys(rows[..|rows| - 1], pkValue, i);
    }
  }

  /** Whether refresh stops at the i-th row: a null row, or no primary-key field to read it with. */
  predicate FailsAt<T>(rows: seq<Option<T>>, i: int, primaryKey: Option<string>)
    requires 0 <= i < |rows|
  {
    rows[i].None? || primaryKey.None?
  }

  /** TableCache. */
  class TableCache<K(==), T(==,!new)> {
    const className: string
    const tableName: string
    /** String.valueOf of a primary-key value, as concatenated into SQL. */
    const keyText: K -> string
    /** Field.get of the primary-key field on a row. */
    const pkValue: T -> Option<K>
    /** The name of the @PrimaryKey field, null until init finds one. */
    var primaryKey: Option<string>
    var cache: map<Option<K>, T>

    /** The table name is the underscored simple class name. */
    constructor (className: string, keyText: K -> string, pkValue: T -> Option<K>)
      ensures this.className == className && this.keyText == keyText && this.pkValue == pkValue
      ensures tableName == Underscore(SimpleName(className)) && NoUpper(tableName)
      ensures primaryKey.None? && cache == map[]
    {
      this.className := className;
      var idx := LastIndexOf(className, '.');
      var t := UnderscoreName(Some(className[idx + 1..]));
      UnderscoreHasNoUpper(className[idx + 1..]);
      tableName := t;
      this.keyText := keyText;
      this.pkValue := pkValue;
      primaryKey := None;
      cache := map[];
    }

    /** The SQL text get and refresh(key) use for a key; a null key is written "null". */
    function KeyQuery(key: Option<K>): string
      requires primaryKey.Some?
      reads this
    {
      KeySql(tableName, primaryKey.value, if key.Some? then keyText(key.value) else "null")
    }

    /**
     * get: a cached row is returned without a query; a null key that is not
     * cached gives null; otherwise the row is queried by primary key, a
     * missing row gives null, and a non-null row is cached.
     */
    method Get(key: Option<K>, db: Db<T>) returns (r: Result<Option<T>>)
      modifies this
      ensures key in old(cache) ==> r == Ok(Some(old(cache)[key])) && cache == old(cache)
      ensures key !in old(cache) && key.None? ==> r == Ok(None) && cache == old(cache)
      ensures key !in old(cache) && key.Some? && primaryKey.None? ==>
        r == Throws(NullPointerException) && cache == old(cache)
      ensures key !in old(cache) && key.Some? && primaryKey.Some? ==>
        var q := QueryForObject(db, KeyQuery(key));
        && (q == Throws(EmptyResultDataAccessException) ==> r == Ok(None) && cache == old(cache))
        && (q == Throws(IncorrectResultSizeDataAccessException) ==> r == q && cache == old(cache))
        && (q.Ok? && q.value.None? ==> r == q && cache == old(cache))
        && (q.Ok? && q.value.Some? ==> r == q && cache == old(cache)[key := q.value.value])
      ensures r.Ok? && r.value.Some? ==> key in cache && cache[key] == r.value.value
      ensures primaryKey == old(primaryKey)
    {
      if key in cache {
        return Ok(Some(cache[key]));
      }
      if key.None? {
        return Ok(None);
      }
      if primaryKey.None? {
        return Throws(NullPointerException);
      }
      var q := QueryForObject(db, KeyQuery(key));
      if q == Throws(EmptyResultDataAccessException) {
        return Ok(None);
      }
      if q.Throws? {
        return q;
      }
      if q.value.Some? {
        cache := cache[key := q.value.value];
      }
      r := q;
    }

    /** getAll: the cached rows, a row cached under two keys counted twice. */
    ghost function GetAll(): (r: multiset<T>)
      reads this
      ensures forall x :: x in r <==> exists k :: k in cache && cache[k] == x
      ensures forall x :: r[x] == |KeysWith(cache, x)|
    {
      var r := Values(cache);
      KeysWithSome(cache);
      r
    }

    /**
     * refresh(): unless another refresh holds the lock, replaces the cache by
     * every row of the table under its primary-key value; reading the key of a
     * null row, or with no key field, throws with the earlier rows cached.
     * It assumes init has run: before init the row mapper is built over a
     * null class and throws before the cache is cleared.
     */
    method Refresh(lockHeld: bool, db: Db<T>) returns (r: Result<()>)
      modifies this
      ensures primaryKey == old(primaryKey)
      ensures lockHeld ==> r == Ok(()) && cache == old(cache)
      ensures !lockHeld ==>
        var rows := db(AllSql(tableName));
        && (r.Ok? <==> forall i :: 0 <= i < |rows| ==> !FailsAt(rows, i, primaryKey))
        && (r.Ok? ==> cache == Keyed(rows, pkValue))
        && (r.Throws? ==>
              && r == Throws(NullPointerException)
              && exists i :: 0 <= i < |rows| && FailsAt(rows, i, primaryKey) && cache == Keyed(rows[..i], pkValue))
    {
      if lockHeld {
        return Ok(());
      }
      var list := db(AllSql(tableName));
      var pk := primaryKey;
      cache := map[];
      var i := 0;
      while i < |list|
        invariant 0 <= i <= |list| && primaryKey == pk
        invariant forall j :: 0 <= j < i ==> !FailsAt(list, j, pk)
        invariant cache == Keyed(list[..i], pkValue)
      {
        var tt := list[i];
        assert list[..i + 1][..i] == list[..i];
        if tt.None? || pk.None? {
          assert FailsAt(list, i, pk);
          return Throws(NullPointerException);
        }
        cache := cache[pkValue(tt.value) := tt.value];
        i := i + 1;
      }
      assert list[..i] == list;
      r := Ok(());
    }

    /** refresh(key): queries the key's row; a non-null row is cached, a null one uncaches the key. */
    method RefreshKey(key: Option<K>, db: Db<T>) returns (r: Result<()>)
      modifies this
      ensures primaryKey == old(primaryKey)
      ensures primaryKey.None? ==> r == Throws(NullPointerException) && cache == old(cache)
      ensures primaryKey.Some? ==>
        var q := QueryForObject(db, KeyQuery(key));
        && (q.Throws? ==> r == Throws(q.exception) && cache == old(cache))
        && (q.Ok? && q.value.Some? ==> r == Ok(()) && cache == old(cache)[key := q.value.value])
        && (q.Ok? && q.value.None? ==> r == Ok(()) && cache == old(cache) - {key})
    {
      if primaryKey.None? {
        return Throws(NullPointerException);
      }
      var q := QueryForObject(db, KeyQuery(key));
      if q.Throws? {
        return Throws(q.exception);
      }
      if q.value.Some? {
        cache := cache[key := q.value.value];
      } else {
        cache := cache - {key};
      }
      r := Ok(());
    }

    /**
     * init: takes the first @PrimaryKey field of the model class; with none
     * found (and none found before) it returns without loading anything,
     * otherwise it refreshes the whole table.
     */
    method Init(fields: seq<FieldInfo>, lockHeld: bool, db: Db<T>) returns (r: Result<()>)
      modifies this
      ensures FirstPrimaryKey(fields).Some? ==> primaryKey == FirstPrimaryKey(fields)
      ensures FirstPrimaryKey(fields).None? ==> primaryKey == old(primaryKey)
      ensures primaryKey.None? ==> r == Ok(()) && cache == old(cache)
      ensures primaryKey.Some? && lockHeld ==> r == Ok(()) && cache == old(cache)
      ensures primaryKey.Some? && !lockHeld ==>
        var rows := db(AllSql(tableName));
        && (r.Ok? <==> forall i :: 0 <= i < |rows| ==> rows[i].Some?)
        && (r.Ok? ==> cache == Keyed(rows, pkValue))
        && (r.Throws? ==>
              && r == Throws(NullPointerException)
              && exists i :: 0 <= i < |rows| && rows[i].None? && cache == Keyed(rows[..i], pkValue))
    {
      var i := 0;
      while i < |fields|
        invariant 0 <= i <= |fields|
        invariant forall j :: 0 <= j < i ==> !fields[j].primaryKey
        invariant primaryKey == old(primaryKey) && cache == old(cache)
      {
        if fields[i].primaryKey {
          primaryKey := Some(fields[i].name);
          break;
        }
        i := i + 1;
      }
      if primaryKey.None? {
        return Ok(());
      }
      r := Refresh(lockHeld, db);
      ghost var rows := db(AllSql(tableName));
      assert forall i :: 0 <= i < |rows| ==> FailsAt(rows, i, primaryKey) == rows[i].None?;
    }
  }
}
