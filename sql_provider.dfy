/**
 * AbstractSQLProvider and MySQLProvider: from the declared fields of a
 * persistent class and the name of its id field, the provider derives a table
 * name, an ordered field map and a fixed set of SQL templates; the provide
 * operations fill the templates with conditions, an order clause and a limit
 * clause through MessageFormat.
 *
 * Reflection becomes a sequence of field declarations; a field's ExcludeDBField
 * annotation is its optional FieldType.
 */
module SqlProvider {
  import opened JavaLang
  import opened SqlNames
  import opened SqlConditions
  import opened SqlPatterns

  // ---------------------------------------------------------------------------
  // Field declarations and identifiers
  // ---------------------------------------------------------------------------

  /** The value of an ExcludeDBField annotation. */
  datatype FieldType = Must | Should | MustNot

  /** A declared field: its name, whether it is static, and its ExcludeDBField value if annotated. */
  datatype FieldDecl = FieldDecl(name: string, isStatic: bool, exclude: Option<FieldType>)

  /** A field map entry: the Java field name and its column name. */
  datatype Column = Column(fieldName: string, column: string)

  /** The ASCII characters of a Java identifier. */
  predicate IsNameChar(c: char) { IsUpper(c) || IsLower(c) || IsDigit(c) || c == '_' || c == '$' }

  predicate IsName(s: string) { forall i :: 0 <= i < |s| ==> IsNameChar(s[i]) }

  predicate NamedColumn(c: Column) { IsName(c.fieldName) && IsName(c.column) }

  /** Table, id column and every mapped column are identifiers. */
  predicate WellNamed(table: string, idField: Column, cols: seq<Column>)
  {
    IsName(table) && NamedColumn(idField) && forall i :: 0 <= i < |cols| ==> NamedColumn(cols[i])
  }

  lemma {:induction false} UnderscoreTailKeepsName(s: string)
    requires IsName(s)
    ensures IsName(UnderscoreTail(s))
  {
    if s != [] {
      UnderscoreTailKeepsName(s[1..]);
      var h := UnderscoreChar(s[0]);
      assert IsName(h);
      var t := UnderscoreTail(s[1..]);
      assert UnderscoreTail(s) == h + t;
      forall i | 0 <= i < |h + t|
        ensures IsNameChar((h + t)[i])
      {
        if i >= |h| {
          assert (h + t)[i] == t[i - |h|];
        }
      }
    }
  }

  /** underscoreName maps identifiers to identifiers. */
  lemma UnderscoreKeepsName(s: string)
    requires IsName(s)
    ensures IsName(Underscore(s))
  {
    if s != [] {
      UnderscoreTailKeepsName(s[1..]);
      var t := UnderscoreTail(s[1..]);
      forall i | 0 <= i < |Underscore(s)|
        ensures IsNameChar(Underscore(s)[i])
      {
        if i >= 1 {
          assert Underscore(s)[i] == t[i - 1];
        }
      }
    }
  }

  lemma NameIsPlain(s: string)
    requires IsName(s)
    ensures Plain(s) && Lacks(s, ',') && Lacks(s, '?')
  {
  }

  // ---------------------------------------------------------------------------
  // prepareFields
  // ---------------------------------------------------------------------------

  /** A field prepareFields keeps: not static and not annotated with ExcludeDBField at all. */
  predicate Persistent(f: FieldDecl) { !f.isStatic && f.exclude.None? }

  function ColumnOf(name: string): Column { Column(name, Underscore(name)) }

  /** The field map: every persistent field other than the id field, in declaration order. */
  function MappedFields(fields: seq<FieldDecl>, idName: string): seq<Column>
  {
    if fields == [] then []
    else
      var f := fields[|fields| - 1];
      MappedFields(fields[..|fields| - 1], idName) + (if Persistent(f) && f.name != idName then [ColumnOf(f.name)] else [])
  }

  /** The id field with its column name: the last persistent field named idName, if any. */
  function IdColumn(fields: seq<FieldDecl>, idName: string): Option<Column>
  {
    if fields == [] then None
    else
      var f := fields[|fields| - 1];
      if Persistent(f) && f.name == idName then Some(ColumnOf(f.name))
      else IdColumn(fields[..|fields| - 1], idName)
  }

  /** AbstractSQLProvider.prepareFields: one pass over the declared fields. */
  method PrepareFields(fields: seq<FieldDecl>, idName: string) returns (fieldMap: seq<Column>, idField: Option<Column>)
    ensures fieldMap == MappedFields(fields, idName)
    ensures idField == IdColumn(fields, idName)
  {
    fieldMap, idField := [], None;
    var i := 0;
    while i < |fields|
      invariant 0 <= i <= |fields|
      invariant fieldMap == MappedFields(fields[..i], idName)
      invariant idField == IdColumn(fields[..i], idName)
    {
      var f := fields[i];
      assert fields[..i + 1][..i] == fields[..i];
      if !f.isStatic && f.exclude.None? {
        var u := UnderscoreName(Some(f.name));
        if idName == f.name {
          idField := Some(Column(f.name, u));
        } else {
          fieldMap := fieldMap + [Column(f.name, u)];
        }
      }
      i := i + 1;
    }
    assert fields[..|fields|] == fields;
  }

  /** The field map holds exactly the persistent non-id fields, each under its underscored name. */
  lemma {:induction false} MappedFieldsMembers(fields: seq<FieldDecl>, idName: string)
    ensures forall i :: 0 <= i < |fields| && Persistent(fields[i]) && fields[i].name != idName
                    ==> ColumnOf(fields[i].name) in MappedFields(fields, idName)
    ensures forall c :: c in MappedFields(fields, idName)
                    ==> exists i :: 0 <= i < |fields| && Persistent(fields[i]) && fields[i].name != idName
                                    && c == ColumnOf(fields[i].name)
  {
    if fields != [] {
      var n := |fields| - 1;
      var init := fields[..n];
      MappedFieldsMembers(init, idName);
      forall c | c in MappedFields(fields, idName)
        ensures exists i :: 0 <= i < |fields| && Persistent(fields[i]) && fields[i].name != idName
                            && c == ColumnOf(fields[i].name)
      {
        if c in MappedFields(init, idName) {
          var i :| 0 <= i < |init| && Persistent(init[i]) && init[i].name != idName && c == ColumnOf(init[i].name);
          assert fields[i] == init[i];
        } else {
          assert Persistent(fields[n]) && fields[n].name != idName && c == ColumnOf(fields[n].name);
        }
      }
      forall i | 0 <= i < |fields| && Persistent(fields[i]) && fields[i].name != idName
        ensures ColumnOf(fields[i].name) in MappedFields(fields, idName)
      {
        if i < n {
          assert fields[i] == init[i];
        }
      }
    }
  }

  /** Filtering distributes over concatenation, so the field map keeps declaration order. */
  lemma {:induction false} MappedFieldsAppend(a: seq<FieldDecl>, b: seq<FieldDecl>, idName: string)
    ensures MappedFields(a + b, idName) == MappedFields(a, idName) + MappedFields(b, idName)
  {
    if b == [] {
      assert a + b == a;
    } else {
      var n := |b| - 1;
      assert (a + b)[..|a + b| - 1] == a + b[..n];
      MappedFieldsAppend(a, b[..n], idName);
    }
  }

  /** An id field is found iff some persistent field is named idName; its column is underscoreName(idName). */
  lemma {:induction false} IdColumnFound(fields: seq<FieldDecl>, idName: string)
    ensures IdColumn(fields, idName).Some?
        <==> exists i :: 0 <= i < |fields| && Persistent(fields[i]) && fields[i].name == idName
    ensures IdColumn(fields, idName).Some? ==> IdColumn(fields, idName).value == ColumnOf(idName)
  {
    if fields != [] {
      var n := |fields| - 1;
      var init := fields[..n];
      IdColumnFound(init, idName);
      if exists i :: 0 <= i < |fields| && Persistent(fields[i]) && fields[i].name == idName {
        var i :| 0 <= i < |fields| && Persistent(fields[i]) && fields[i].name == idName;
        if i < n {
          assert init[i] == fields[i];
        }
      } else {
        forall i | 0 <= i < |init|
          ensures !(Persistent(init[i]) && init[i].name == idName)
        {
          assert init[i] == fields[i];
        }
      }
    }
  }

  // ---------------------------------------------------------------------------
  // The builders
  // ---------------------------------------------------------------------------

  function ColumnNames(cols: seq<Column>): seq<string>
  {
    if cols == [] then [] else ColumnNames(cols[..|cols| - 1]) + [cols[|cols| - 1].column]
  }

  /** n "?" markers. */
  function Marks(n: nat): seq<string>
  {
    if n == 0 then [] else Marks(n - 1) + ["?"]
  }

  /** "insert into T({0}c1,..,cn) values ({1}?,..,?)". */
  function InsertText(table: string, cols: seq<Column>): string
  {
    "insert into " + table + "({0}" + Join(ColumnNames(cols), ",") + ") values ({1}" + Join(Marks(|cols|), ",") + ")"
  }

  /** The first half of prepareInsertSQL: the column list, its last ',' deleted. */
  method InsertColumns(table: string, fieldMap: seq<Column>) returns (r: Result<string>)
    ensures fieldMap != [] ==> r == Ok("insert into " + table + "({0}" + Join(ColumnNames(fieldMap), ","))
    ensures fieldMap == [] && Lacks(table, ',') ==> r == Throws(StringIndexOutOfBoundsException)
  {
    var head := "insert into " + table + "({0}";
    var sb := head;
    var i := 0;
    while i < |fieldMap|
      invariant 0 <= i <= |fieldMap|
      invariant sb == head + Terminated(ColumnNames(fieldMap[..i]), ",")
    {
      assert fieldMap[..i + 1][..i] == fieldMap[..i];
      TerminatedSnoc(ColumnNames(fieldMap[..i]), fieldMap[i].column, ",");
      sb := sb + fieldMap[i].column + ",";
      i := i + 1;
    }
    assert fieldMap[..i] == fieldMap;
    var names := Join(ColumnNames(fieldMap), ",");
    if fieldMap != [] {
      TerminatedIsJoinPlusSep(ColumnNames(fieldMap), ",");
      assert sb == (head + names) + [','];
      DeleteTrailing(head + names, ',');
    } else if Lacks(table, ',') {
      LacksAppend("insert into ", table, ',');
      LacksAppend("insert into " + table, "({0}", ',');
      DeleteAbsent(sb, ',');
    }
    r := DeleteCharAt(sb, LastIndexOf(sb, ','));
  }

  /** AbstractSQLProvider.prepareInsertSQL; deleteCharAt(lastIndexOf(",")) throws when there is no ','. */
  method PrepareInsertSQL(table: string, fieldMap: seq<Column>) returns (r: Result<string>)
    ensures fieldMap != [] ==> r == Ok(InsertText(table, fieldMap))
    ensures fieldMap == [] && Lacks(table, ',') ==> r == Throws(StringIndexOutOfBoundsException)
  {
    var columns := InsertColumns(table, fieldMap);
    if columns.Throws? {
      return columns;
    }
    var mid := columns.value + ") values ({1}";
    var sb := mid;
    var n := |fieldMap|;
    var i := 0;
    while i < n
      invariant 0 <= i <= n
      invariant sb == mid + Terminated(Marks(i), ",")
    {
      TerminatedSnoc(Marks(i), "?", ",");
      sb := sb + "?" + ",";
      i := i + 1;
    }
    if n > 0 {
      TerminatedIsJoinPlusSep(Marks(n), ",");
      assert sb == (mid + Join(Marks(n), ",")) + [','];
      DeleteTrailing(mid + Join(Marks(n), ","), ',');
    }
    var deleted := DeleteCharAt(sb, LastIndexOf(sb, ','));
    if deleted.Throws? {
      return deleted;
    }
    return Ok(deleted.value + ")");
  }

  function Assignments(cols: seq<Column>): seq<string>
  {
    if cols == [] then [] else Assignments(cols[..|cols| - 1]) + [cols[|cols| - 1].column + " = ?"]
  }

  /** "update T set c1 = ?,..,cn = ? where id = ?". */
  function UpdateText(table: string, cols: seq<Column>, idColumn: string): string
  {
    "update " + table + " set " + Join(Assignments(cols), ",") + " where " + idColumn + " = ?"
  }

  /** AbstractSQLProvider.prepareUpdateSQL. */
  method PrepareUpdateSQL(table: string, fieldMap: seq<Column>, idColumn: string) returns (r: Result<string>)
    ensures fieldMap != [] ==> r == Ok(UpdateText(table, fieldMap, idColumn))
    ensures fieldMap == [] && Lacks(table, ',') ==> r == Throws(StringIndexOutOfBoundsException)
  {
    var head := "update " + table + " set ";
    var sb := head;
    var i := 0;
    while i < |fieldMap|
      invariant 0 <= i <= |fieldMap|
      invariant sb == head + Terminated(Assignments(fieldMap[..i]), ",")
    {
      assert fieldMap[..i + 1][..i] == fieldMap[..i];
      TerminatedSnoc(Assignments(fieldMap[..i]), fieldMap[i].column + " = ?", ",");
      sb := sb + (fieldMap[i].column + " = ?") + ",";
      i := i + 1;
    }
    assert fieldMap[..i] == fieldMap;
    var items := Join(Assignments(fieldMap), ",");
    if fieldMap != [] {
      TerminatedIsJoinPlusSep(Assignments(fieldMap), ",");
      assert sb == (head + items) + [','];
      DeleteTrailing(head + items, ',');
    } else if Lacks(table, ',') {
      LacksAppend("update ", table, ',');
      LacksAppend("update " + table, " set ", ',');
      DeleteAbsent(sb, ',');
    }
    var deleted := DeleteCharAt(sb, LastIndexOf(sb, ','));
    if deleted.Throws? {
      return Throws(deleted.exception);
    }
    return Ok(deleted.value + " where " + idColumn + " = ?");
  }

  function SelectItem(c: Column): string { c.column + " as " + c.fieldName }

  function SelectItems(cols: seq<Column>): seq<string>
  {
    if cols == [] then [] else SelectItems(cols[..|cols| - 1]) + [SelectItem(cols[|cols| - 1])]
  }

  /** "select id as idName, c1 as f1, .. from T": the query-all text without its order slot. */
  function SelectFrom(table: string, idField: Column, cols: seq<Column>): string
  {
    "select " + Join([SelectItem(idField)] + SelectItems(cols), ", ") + " from " + table
  }

  /** The query-all template: the select text followed by an order slot " {0}". */
  function QueryAllText(table: string, idField: Column, cols: seq<Column>): string
  {
    SelectFrom(table, idField, cols) + " {0}"
  }

  /** AbstractSQLProvider.prepareQueryAllSQL (the instance method). */
  method PrepareQueryAllSQL(table: string, idField: Column, fieldMap: seq<Column>) returns (r: string)
    ensures r == QueryAllText(table, idField, fieldMap)
  {
    var first := SelectItem(idField);
    var sb := "select " + first;
    var i := 0;
    while i < |fieldMap|
      invariant 0 <= i <= |fieldMap|
      invariant sb == "select " + Join([first] + SelectItems(fieldMap[..i]), ", ")
    {
      assert fieldMap[..i + 1][..i] == fieldMap[..i];
      var item := SelectItem(fieldMap[i]);
      assert [first] + SelectItems(fieldMap[..i + 1]) == ([first] + SelectItems(fieldMap[..i])) + [item];
      JoinSnoc([first] + SelectItems(fieldMap[..i]), item, ", ");
      sb := sb + ", " + item;
      i := i + 1;
    }
    assert fieldMap[..i] == fieldMap;
    r := sb + " from " + table + " {0}";
  }

  /** A field the static prepareQueryAllSQL selects: not static and not excluded with MUST_NOT. */
  predicate Selected(f: FieldDecl) { !f.isStatic && f.exclude != Some(MustNot) }

  function FieldItem(f: FieldDecl): string { Underscore(f.name) + " as " + f.name }

  function SelectedItems(fields: seq<FieldDecl>): seq<string>
  {
    if fields == [] then []
    else
      var f := fields[|fields| - 1];
      SelectedItems(fields[..|fields| - 1]) + (if Selected(f) then [FieldItem(f)] else [])
  }

  /**
   * The static query-all of a class; with no selected field deleteCharAt
   * removes the space after "select".
   */
  function ClassQueryAllText(simpleName: string, fields: seq<FieldDecl>): string
  {
    if SelectedItems(fields) == [] then "select from " + Underscore(simpleName)
    else "select " + Join(SelectedItems(fields), ",") + " from " + Underscore(simpleName)
  }

  /** AbstractSQLProvider.prepareQueryAllSQL(Class). */
  method PrepareClassQueryAllSQL(simpleName: string, fields: seq<FieldDecl>) returns (r: string)
    ensures r == ClassQueryAllText(simpleName, fields)
  {
    var sb := "select ";
    var i := 0;
    while i < |fields|
      invariant 0 <= i <= |fields|
      invariant sb == "select " + Terminated(SelectedItems(fields[..i]), ",")
    {
      var f := fields[i];
      assert fields[..i + 1][..i] == fields[..i];
      if !f.isStatic && f.exclude != Some(MustNot) {
        var u := UnderscoreName(Some(f.name));
        assert SelectedItems(fields[..i + 1]) == SelectedItems(fields[..i]) + [FieldItem(f)];
        ghost var t := Terminated(SelectedItems(fields[..i]), ",");
        TerminatedSnoc(SelectedItems(fields[..i]), FieldItem(f), ",");
        ConcatAssoc("select ", t, FieldItem(f));
        ConcatAssoc("select ", t + FieldItem(f), ",");
        sb := sb + (u + " as " + f.name) + ",";
      } else {
        assert SelectedItems(fields[..i + 1]) == SelectedItems(fields[..i]);
      }
      i := i + 1;
    }
    assert fields[..i] == fields;
    SelectFromText(simpleName, fields);
    sb := sb[..|sb| - 1];
    var table := UnderscoreName(Some(simpleName));
    r := sb + " from " + table;
  }

  /** The trimmed select list followed by the table is the static query's text. */
  lemma SelectFromText(simpleName: string, fields: seq<FieldDecl>)
    ensures var sb := "select " + Terminated(SelectedItems(fields), ",");
      sb[..|sb| - 1] + " from " + Underscore(simpleName) == ClassQueryAllText(simpleName, fields)
  {
    SelectListTrimmed(SelectedItems(fields));
    if SelectedItems(fields) == [] {
      assert "select" + " from " == "select from ";
    }
  }

  /** deleteCharAt(length - 1) on the select list drops the last ',' or, with no item, the space. */
  lemma SelectListTrimmed(items: seq<string>)
    ensures var sb := "select " + Terminated(items, ",");
      sb[..|sb| - 1] == if items == [] then "select" else "select " + Join(items, ",")
  {
    var sb := "select " + Terminated(items, ",");
    if items != [] {
      TerminatedIsJoinPlusSep(items, ",");
      assert sb == ("select " + Join(items, ",")) + ",";
    }
  }

  /** The static query selects every non-static field not marked MUST_NOT, MUST and SHOULD included. */
  lemma {:induction false} SelectedItemsMembers(fields: seq<FieldDecl>)
    ensures forall i :: 0 <= i < |fields| && Selected(fields[i]) ==> FieldItem(fields[i]) in SelectedItems(fields)
    ensures forall s :: s in SelectedItems(fields) ==> exists i :: 0 <= i < |fields| && Selected(fields[i]) && s == FieldItem(fields[i])
  {
    if fields != [] {
      var n := |fields| - 1;
      var init := fields[..n];
      SelectedItemsMembers(init);
      forall s | s in SelectedItems(fields)
        ensures exists i :: 0 <= i < |fields| && Selected(fields[i]) && s == FieldItem(fields[i])
      {
        if s in SelectedItems(init) {
          var i :| 0 <= i < |init| && Selected(init[i]) && s == FieldItem(init[i]);
          assert fields[i] == init[i];
        } else {
          assert Selected(fields[n]) && s == FieldItem(fields[n]);
        }
      }
      forall i | 0 <= i < |fields| && Selected(fields[i])
        ensures FieldItem(fields[i]) in SelectedItems(fields)
      {
        if i < n {
          assert fields[i] == init[i];
        }
      }
    }
  }

  /** "select count(id) from T". */
  function CountAllSQL(table: string, idColumn: string): string
  {
    "select count(" + idColumn + ") from " + table
  }

  /** "delete from T where id = ?". */
  function DeleteByIdSQL(table: string, idColumn: string): string
  {
    "delete from " + table + " where " + idColumn + " = ?"
  }

  // ---------------------------------------------------------------------------
  // The provider and its templates
  // ---------------------------------------------------------------------------

  datatype Provider = Provider(
    tableName: string,
    fieldMap: seq<Column>,
    idField: Column,
    queryAllSQL: string,
    countAllSQL: string,
    queryByIdSQL: string,
    queryByFieldSQL: string,
    countByFieldSQL: string,
    queryByFieldRangeSQL: string,
    countByFieldRangeSQL: string,
    insertSQL: string,
    updateSQL: string,
    deleteByIdSQL: string)

  /** The templates the constructor derives from a table, an id column and a field map. */
  function Assemble(table: string, idField: Column, cols: seq<Column>): Provider
  {
    var queryAll := QueryAllText(table, idField, cols);
    var countAll := CountAllSQL(table, idField.column);
    var noOrder := Format(queryAll, [""]);
    Provider(table, cols, idField, queryAll, countAll,
             noOrder + "where " + idField.column + " = ?",
             noOrder + ByFieldPattern,
             countAll + CountByFieldPattern,
             noOrder + ByFieldRangePattern,
             countAll + CountByFieldRangePattern,
             InsertText(table, cols),
             UpdateText(table, cols, idField.column),
             DeleteByIdSQL(table, idField.column))
  }

  /**
   * The AbstractSQLProvider constructor: Assert.notNull(idField) fails without
   * an id field, and the insert builder fails on an empty field map.
   */
  method NewProvider(idName: string, simpleName: string, fields: seq<FieldDecl>) returns (r: Result<Provider>)
    ensures IdColumn(fields, idName).None? ==> r == Throws(IllegalArgumentException)
    ensures IdColumn(fields, idName).Some? && MappedFields(fields, idName) == [] && IsName(simpleName)
            ==> r == Throws(StringIndexOutOfBoundsException)
    ensures IdColumn(fields, idName).Some? && MappedFields(fields, idName) != []
            ==> r == Ok(Assemble(Underscore(simpleName), IdColumn(fields, idName).value, MappedFields(fields, idName)))
  {
    var table := UnderscoreName(Some(simpleName));
    var fieldMap, idField := PrepareFields(fields, idName);
    if idField.None? {
      return Throws(IllegalArgumentException);
    }
    var id := idField.value;
    var queryAll := PrepareQueryAllSQL(table, id, fieldMap);
    var countAll := CountAllSQL(table, id.column);
    var noOrder := Format(queryAll, [""]);
    var queryById := noOrder + "where " + id.column + " = ?";
    var queryByField := noOrder + ByFieldPattern;
    var countByField := countAll + CountByFieldPattern;
    var queryByFieldRange := noOrder + ByFieldRangePattern;
    var countByFieldRange := countAll + CountByFieldRangePattern;
    if IsName(simpleName) {
      UnderscoreKeepsName(simpleName);
    }
    var insert := PrepareInsertSQL(table, fieldMap);
    if insert.Throws? {
      return Throws(insert.exception);
    }
    var update := PrepareUpdateSQL(table, fieldMap, id.column);
    if update.Throws? {
      return Throws(update.exception);
    }
    var deleteById := DeleteByIdSQL(table, id.column);
    r := Ok(Provider(table, fieldMap, id, queryAll, countAll, queryById, queryByField, countByField,
                     queryByFieldRange, countByFieldRange, insert.value, update.value, deleteById));
  }

  /** Identifier names in the class give identifier names in every template. */
  lemma BuiltProviderWellNamed(idName: string, simpleName: string, fields: seq<FieldDecl>)
    requires IsName(simpleName) && forall i :: 0 <= i < |fields| ==> IsName(fields[i].name)
    requires IdColumn(fields, idName).Some?
    ensures WellNamed(Underscore(simpleName), IdColumn(fields, idName).value, MappedFields(fields, idName))
  {
    UnderscoreKeepsName(simpleName);
    IdColumnFound(fields, idName);
    var j :| 0 <= j < |fields| && Persistent(fields[j]) && fields[j].name == idName;
    UnderscoreKeepsName(fields[j].name);
    MappedFieldsMembers(fields, idName);
    var cols := MappedFields(fields, idName);
    forall i | 0 <= i < |cols|
      ensures NamedColumn(cols[i])
    {
      assert cols[i] in cols;
      var k :| 0 <= k < |fields| && Persistent(fields[k]) && fields[k].name != idName && cols[i] == ColumnOf(fields[k].name);
      UnderscoreKeepsName(fields[k].name);
    }
  }

  // ---------------------------------------------------------------------------
  // The provide operations
  // ---------------------------------------------------------------------------

  /** The order argument: the order clause, or "" for a null order. */
  function OrderArg(order: SqlOrder?): string
    reads order
  {
    if order == null then "" else order.OrderClause()
  }

  /** The limit argument: the MySQL limit clause, or "" for a null limit. */
  function LimitArg(limit: Option<string>): string
  {
    if limit.None? then "" else limit.value
  }

  /** provideQueryAllSQL. */
  function ProvideQueryAllSQL(p: Provider, order: SqlOrder?): string
    reads order
  {
    Format(p.queryAllSQL, [OrderArg(order)])
  }

  /** provideCountByFieldSQL; a null condition throws NullPointerException. */
  function ProvideCountByFieldSQL<T>(p: Provider, fc: Option<FieldCondition<T>>): Result<string>
  {
    if fc.None? then Throws(NullPointerException)
    else Ok(Format(p.countByFieldSQL, [fc.value.Text()]))
  }

  /** provideCountByFieldRangeSQL; a null condition throws; a range without bounds prints "null". */
  function ProvideCountByFieldRangeSQL<T>(p: Provider, fc: Option<FieldCondition<T>>,
                                          rc: Option<RangeCondition<T>>): Result<string>
  {
    if fc.None? || rc.None? then Throws(NullPointerException)
    else Ok(Format(p.countByFieldRangeSQL, [fc.value.Text(), Str(rc.value.Text())]))
  }

  /** MySQLProvider.provideQueryByFieldSQL; Assert.notNull rejects a null condition. */
  function ProvideQueryByFieldSQL<T>(p: Provider, fc: Option<FieldCondition<T>>, limit: Option<string>,
                                     order: SqlOrder?): Result<string>
    reads order
  {
    if fc.None? then Throws(IllegalArgumentException)
    else Ok(Format(p.queryByFieldSQL, [fc.value.Text(), OrderArg(order), LimitArg(limit)]))
  }

  /** MySQLProvider.provideQueryByFieldRangeSQL; a null condition throws NullPointerException. */
  function ProvideQueryByFieldRangeSQL<T>(p: Provider, fc: Option<FieldCondition<T>>, rc: Option<RangeCondition<T>>,
                                          limit: Option<string>, order: SqlOrder?): Result<string>
    reads order
  {
    if fc.None? || rc.None? then Throws(NullPointerException)
    else Ok(Format(p.queryByFieldRangeSQL, [fc.value.Text(), Str(rc.value.Text()), OrderArg(order), LimitArg(limit)]))
  }

  // ---------------------------------------------------------------------------
  // What the templates say
  // ---------------------------------------------------------------------------

  lemma {:induction false} SelectItemsNamed(cols: seq<Column>)
    requires forall i :: 0 <= i < |cols| ==> NamedColumn(cols[i])
    ensures forall i :: 0 <= i < |SelectItems(cols)| ==> Plain(SelectItems(cols)[i])
  {
    if cols != [] {
      var n := |cols| - 1;
      SelectItemsNamed(cols[..n]);
      var c := cols[n];
      PlainAppend(c.column, " as ");
      PlainAppend(c.column + " as ", c.fieldName);
    }
  }

  lemma SelectFromPlain(table: string, idField: Column, cols: seq<Column>)
    requires WellNamed(table, idField, cols)
    ensures Plain(SelectFrom(table, idField, cols) + " ")
  {
    SelectItemsNamed(cols);
    var items := [SelectItem(idField)] + SelectItems(cols);
    PlainAppend(idField.column, " as ");
    PlainAppend(idField.column + " as ", idField.fieldName);
    assert forall i :: 0 <= i < |items| ==> Plain(items[i]) by {
      forall i | 0 <= i < |items|
        ensures Plain(items[i])
      {
        if i > 0 {
          assert items[i] == SelectItems(cols)[i - 1];
        }
      }
    }
    PlainJoin(items, ", ");
    PlainAppend("select ", Join(items, ", "));
    PlainAppend("select " + Join(items, ", "), " from ");
    PlainAppend("select " + Join(items, ", ") + " from ", table);
    PlainAppend(SelectFrom(table, idField, cols), " ");
  }

  /** With "" for the order slot the query-all template leaves the select text and a space. */
  lemma NoOrderText(table: string, idField: Column, cols: seq<Column>, order: string)
    requires WellNamed(table, idField, cols)
    ensures Format(QueryAllText(table, idField, cols), [order]) == SelectFrom(table, idField, cols) + " " + order
  {
    var s := SelectFrom(table, idField, cols) + " ";
    SelectFromPlain(table, idField, cols);
    assert QueryAllText(table, idField, cols) == s + Placeholder(0);
    FormatAppendPlain(s, Placeholder(0), [order]);
    FormatLast(0, [order]);
  }

  /** provideQueryAllSQL puts the order clause, or nothing, after the select text. */
  lemma QueryAllWithOrder(table: string, idField: Column, cols: seq<Column>, order: SqlOrder?)
    requires WellNamed(table, idField, cols)
    ensures ProvideQueryAllSQL(Assemble(table, idField, cols), order)
         == SelectFrom(table, idField, cols) + " " + OrderArg(order)
  {
    NoOrderText(table, idField, cols, OrderArg(order));
  }

  /** queryByIdSQL selects by the id column with one placeholder. */
  lemma QueryByIdText(table: string, idField: Column, cols: seq<Column>)
    requires WellNamed(table, idField, cols)
    ensures Assemble(table, idField, cols).queryByIdSQL
         == SelectFrom(table, idField, cols) + " where " + idField.column + " = ?"
  {
    NoOrderText(table, idField, cols, "");
  }

  /** The by-field templates are the select text, a space and their "where" pattern. */
  lemma ByFieldTemplates(table: string, idField: Column, cols: seq<Column>)
    requires WellNamed(table, idField, cols)
    ensures var s := SelectFrom(table, idField, cols) + " ";
      && Plain(s)
      && Assemble(table, idField, cols).queryByFieldSQL == s + ByFieldPattern
      && Assemble(table, idField, cols).queryByFieldRangeSQL == s + ByFieldRangePattern
  {
    var s := SelectFrom(table, idField, cols) + " ";
    NoOrderText(table, idField, cols, "");
    assert s + "" == s;
    SelectFromPlain(table, idField, cols);
  }

  /** provideQueryByFieldSQL: condition, then the order clause, then the limit clause. */
  lemma QueryByFieldText<T>(table: string, idField: Column, cols: seq<Column>, fc: FieldCondition<T>,
                            limit: Option<string>, order: SqlOrder?)
    requires WellNamed(table, idField, cols)
    ensures ProvideQueryByFieldSQL(Assemble(table, idField, cols), Some(fc), limit, order)
         == Ok(SelectFrom(table, idField, cols) + " "
               + ("where " + (fc.Text() + (" " + (OrderArg(order) + (" " + LimitArg(limit)))))))
  {
    var s := SelectFrom(table, idField, cols) + " ";
    var args := [fc.Text(), OrderArg(order), LimitArg(limit)];
    ByFieldTemplates(table, idField, cols);
    FilledByField(s, args);
  }

  /** provideQueryByFieldRangeSQL: condition, range, then the order clause, then the limit clause. */
  lemma QueryByFieldRangeText<T>(table: string, idField: Column, cols: seq<Column>, fc: FieldCondition<T>,
                                 rc: RangeCondition<T>, limit: Option<string>, order: SqlOrder?)
    requires WellNamed(table, idField, cols)
    ensures ProvideQueryByFieldRangeSQL(Assemble(table, idField, cols), Some(fc), Some(rc), limit, order)
         == Ok(SelectFrom(table, idField, cols) + " "
               + ("where " + (fc.Text() + (" and " + (Str(rc.Text()) + (" " + (OrderArg(order) + (" " + LimitArg(limit)))))))))
  {
    var s := SelectFrom(table, idField, cols) + " ";
    var args := [fc.Text(), Str(rc.Text()), OrderArg(order), LimitArg(limit)];
    ByFieldTemplates(table, idField, cols);
    FilledByFieldRange(s, args);
  }

  lemma CountAllPlain(table: string, idColumn: string)
    requires IsName(table) && IsName(idColumn)
    ensures Plain(CountAllSQL(table, idColumn))
  {
    PlainAppend("select count(", idColumn);
    PlainAppend("select count(" + idColumn, ") from ");
    PlainAppend("select count(" + idColumn + ") from ", table);
  }

  /** provideCountByFieldSQL: "select count(id) from T where " and the condition. */
  lemma CountByFieldText<T>(table: string, idField: Column, cols: seq<Column>, fc: FieldCondition<T>)
    requires WellNamed(table, idField, cols)
    ensures ProvideCountByFieldSQL(Assemble(table, idField, cols), Some(fc))
         == Ok(CountAllSQL(table, idField.column) + (" where " + fc.Text()))
  {
    var c := CountAllSQL(table, idField.column);
    CountAllPlain(table, idField.column);
    FilledCountByField(c, [fc.Text()]);
  }

  /** provideCountByFieldRangeSQL: the condition and the range joined by " and ". */
  lemma CountByFieldRangeText<T>(table: string, idField: Column, cols: seq<Column>, fc: FieldCondition<T>,
                                 rc: RangeCondition<T>)
    requires WellNamed(table, idField, cols)
    ensures ProvideCountByFieldRangeSQL(Assemble(table, idField, cols), Some(fc), Some(rc))
         == Ok(CountAllSQL(table, idField.column) + (" where " + (fc.Text() + (" and " + Str(rc.Text())))))
  {
    var c := CountAllSQL(table, idField.column);
    CountAllPlain(table, idField.column);
    FilledCountByFieldRange(c, [fc.Text(), Str(rc.Text())]);
  }

  // ---------------------------------------------------------------------------
  // Placeholders of the insert and update templates
  // ---------------------------------------------------------------------------

  lemma {:induction false} CountAllAbsent(parts: seq<string>, c: char)
    requires forall i :: 0 <= i < |parts| ==> Lacks(parts[i], c)
    ensures CountAll(parts, c) == 0
  {
    if parts != [] {
      CountAllAbsent(parts[..|parts| - 1], c);
      CountAbsent(parts[|parts| - 1], c);
    }
  }

  lemma {:induction false} MarksCount(n: nat)
    ensures |Marks(n)| == n
    ensures CountAll(Marks(n), '?') == n
    ensures forall i :: 0 <= i < |Marks(n)| ==> Marks(n)[i] == "?"
  {
    if n > 0 {
      MarksCount(n - 1);
      assert Marks(n)[..n - 1] == Marks(n - 1);
      assert Count("?", '?') == 1;
    }
  }

  lemma {:induction false} ColumnNamesNamed(cols: seq<Column>)
    requires forall i :: 0 <= i < |cols| ==> NamedColumn(cols[i])
    ensures |ColumnNames(cols)| == |cols|
    ensures forall i :: 0 <= i < |ColumnNames(cols)| ==> IsName(ColumnNames(cols)[i])
  {
    if cols != [] {
      ColumnNamesNamed(cols[..|cols| - 1]);
    }
  }

  lemma {:induction false} AssignmentsCount(cols: seq<Column>)
    requires forall i :: 0 <= i < |cols| ==> NamedColumn(cols[i])
    ensures CountAll(Assignments(cols), '?') == |cols|
  {
    if cols != [] {
      var n := |cols| - 1;
      AssignmentsCount(cols[..n]);
      var c := cols[n].column;
      CountAbsent(c, '?');
      CountAppend(c, " = ?", '?');
      assert Count(" = ?", '?') == 1;
    }
  }

  lemma CountSeven(a: string, b: string, c: string, d: string, e: string, f: string, g: string, ch: char)
    ensures Count(a + b + c + d + e + f + g, ch)
         == Count(a, ch) + Count(b, ch) + Count(c, ch) + Count(d, ch) + Count(e, ch) + Count(f, ch) + Count(g, ch)
  {
    CountAppend(a, b, ch);
    CountAppend(a + b, c, ch);
    CountAppend(a + b + c, d, ch);
    CountAppend(a + b + c + d, e, ch);
    CountAppend(a + b + c + d + e, f, ch);
    CountAppend(a + b + c + d + e + f, g, ch);
  }

  lemma JoinedNamesLack(cols: seq<Column>)
    requires forall i :: 0 <= i < |cols| ==> NamedColumn(cols[i])
    ensures Count(Join(ColumnNames(cols), ","), '?') == 0
    ensures Plain(Join(ColumnNames(cols), ","))
  {
    ColumnNamesNamed(cols);
    JoinCount(ColumnNames(cols), ",", '?');
    CountAllAbsent(ColumnNames(cols), '?');
    PlainJoin(ColumnNames(cols), ",");
  }

  lemma JoinedMarks(n: nat)
    ensures Count(Join(Marks(n), ","), '?') == n
    ensures Plain(Join(Marks(n), ","))
  {
    JoinCount(Marks(n), ",", '?');
    MarksCount(n);
    PlainJoin(Marks(n), ",");
  }

  /** The insert template carries exactly one "?" per mapped column. */
  lemma InsertPlaceholders(table: string, cols: seq<Column>)
    requires IsName(table) && forall i :: 0 <= i < |cols| ==> NamedColumn(cols[i])
    ensures Count(InsertText(table, cols), '?') == |cols|
  {
    var names := Join(ColumnNames(cols), ",");
    var marks := Join(Marks(|cols|), ",");
    JoinedNamesLack(cols);
    JoinedMarks(|cols|);
    CountAbsent(table, '?');
    CountSeven("insert into ", table, "({0}", names, ") values ({1}", marks, ")", '?');
    assert Count("insert into ", '?') == 0 && Count("({0}", '?') == 0;
    assert Count(") values ({1}", '?') == 0 && Count(")", '?') == 0;
  }

  /** The update template carries one "?" per mapped column and one for the id. */
  lemma UpdatePlaceholders(table: string, cols: seq<Column>, idColumn: string)
    requires IsName(table) && IsName(idColumn) && forall i :: 0 <= i < |cols| ==> NamedColumn(cols[i])
    ensures Count(UpdateText(table, cols, idColumn), '?') == |cols| + 1
  {
    var items := Join(Assignments(cols), ",");
    JoinCount(Assignments(cols), ",", '?');
    AssignmentsCount(cols);
    CountAbsent(table, '?');
    CountAbsent(idColumn, '?');
    CountSeven("update ", table, " set ", items, " where ", idColumn, " = ?", '?');
    assert Count("update ", '?') == 0 && Count(" set ", '?') == 0;
    assert Count(" where ", '?') == 0 && Count(" = ?", '?') == 1;
  }

  lemma InsertShape(table: string, names: string, marks: string)
    ensures "insert into " + table + "({0}" + names + ") values ({1}" + marks + ")"
         == ("insert into " + table + "(") + (Placeholder(0) + ((names + ") values (") + (Placeholder(1) + (marks + ")"))))
  {
    assert "({0}" == "(" + Placeholder(0);
    assert ") values ({1}" == ") values (" + Placeholder(1);
  }

  /**
   * The two ways the insert template is filled: "{0}" takes the id column (or
   * nothing) before the columns, "{1}" its marker before the "?" list.
   */
  lemma InsertFilled(table: string, cols: seq<Column>, idPart: string, markPart: string)
    requires IsName(table) && forall i :: 0 <= i < |cols| ==> NamedColumn(cols[i])
    ensures var names := Join(ColumnNames(cols), ",");
            var marks := Join(Marks(|cols|), ",");
      Format(InsertText(table, cols), [idPart, markPart])
         == ("insert into " + table + "(") + (idPart + ((names + ") values (") + (markPart + (marks + ")"))))
  {
    var names := Join(ColumnNames(cols), ",");
    var marks := Join(Marks(|cols|), ",");
    InsertPiecesPlain(table, cols);
    InsertShape(table, names, marks);
    FilledInsert("insert into " + table + "(", names + ") values (", marks + ")", [idPart, markPart]);
  }

  lemma InsertPiecesPlain(table: string, cols: seq<Column>)
    requires IsName(table) && forall i :: 0 <= i < |cols| ==> NamedColumn(cols[i])
    ensures Plain("insert into " + table + "(")
    ensures Plain(Join(ColumnNames(cols), ",") + ") values (")
    ensures Plain(Join(Marks(|cols|), ",") + ")")
  {
    InsertHeadPlain(table);
    JoinedNamesLack(cols);
    JoinedMarks(|cols|);
    PlainAppend(Join(ColumnNames(cols), ","), ") values (");
    PlainAppend(Join(Marks(|cols|), ","), ")");
  }

  lemma InsertHeadPlain(table: string)
    requires IsName(table)
    ensures Plain("insert into " + table + "(")
  {
    PlainAppend("insert into ", table);
    PlainAppend("insert into " + table, "(");
  }

  lemma FilledInsert(a: string, b: string, c: string, args: seq<string>)
    requires Plain(a) && Plain(b) && Plain(c) && |args| == 2
    ensures Format(a + (Placeholder(0) + (b + (Placeholder(1) + c))), args) == a + (args[0] + (b + (args[1] + c)))
  {
    FormatPlaceholder(1, c, args);
    FormatPlain(c, args);
    FormatAppendPlain(b, Placeholder(1) + c, args);
    FormatPlaceholder(0, b + (Placeholder(1) + c), args);
    FormatAppendPlain(a, Placeholder(0) + (b + (Placeholder(1) + c)), args);
  }
}
