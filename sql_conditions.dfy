/**
 * The SQL fragments built by SQLFieldCondition ("f = ?"), SQLFieldRangeCondition
 * ("f >= ? AND f < ?") and SQLOrder (" order by f desc"). Values are kept in
 * the conditions only to be bound later; they never reach the SQL text.
 */
module SqlConditions {
  import opened JavaLang

  // ---------------------------------------------------------------------------
  // SQLFieldCondition
  // ---------------------------------------------------------------------------

  const ConditionFormat: string := "{0} = ?"

  /** SQLFieldCondition: create stores the field name and value as given, without checks. */
  datatype FieldCondition<T> = FieldCondition(fieldName: Option<string>, value: T)
  {
    /** getFieldCondition. */
    function Text(): string
    {
      Format(ConditionFormat, [Str(fieldName)])
    }
  }

  /** The condition reads "name = ?" (a null name prints as "null"). */
  lemma FieldConditionText<T>(c: FieldCondition<T>)
    ensures c.Text() == Str(c.fieldName) + " = ?"
  {
    assert ConditionFormat == Placeholder(0) + " = ?";
    FormatPlaceholder(0, " = ?", [Str(c.fieldName)]);
    FormatPlain(" = ?", [Str(c.fieldName)]);
  }

  /** The condition holds exactly one placeholder, whatever its value. */
  lemma FieldConditionOnePlaceholder<T>(c: FieldCondition<T>)
    requires Lacks(Str(c.fieldName), '?')
    ensures Count(c.Text(), '?') == 1
  {
    FieldConditionText(c);
    CountAbsent(Str(c.fieldName), '?');
    CountAppend(Str(c.fieldName), " = ?", '?');
    assert Count(" = ?", '?') == 1 by {
      assert " = ?"[1..] == "= ?";
      assert "= ?"[1..] == " ?";
      assert " ?"[1..] == "?";
      assert "?"[1..] == "";
    }
  }

  /** Two conditions on the same field print the same text, whatever their values. */
  lemma FieldConditionIgnoresValue<T>(c: FieldCondition<T>, d: FieldCondition<T>)
    requires c.fieldName == d.fieldName
    ensures c.Text() == d.Text()
  {
  }

  // ---------------------------------------------------------------------------
  // SQLFieldRangeCondition
  // ---------------------------------------------------------------------------

  const GtSymbol: string := ">"
  const GteSymbol: string := ">="
  const LtSymbol: string := "<"
  const LteSymbol: string := "<="
  const LeftOrRightCondition: string := "{0} {1} ?"
  const RangeConditionFormat: string := "{0} AND {1}"

  /** SQLFieldRangeCondition: a field and optional lower and upper bounds. */
  datatype RangeCondition<T> = RangeCondition(
    fieldName: Option<string>, minVal: Option<T>, maxVal: Option<T>, includeMin: bool, includeMax: bool)
  {
    /** The lower bound predicate, null when there is no lower bound. */
    function Left(): Option<string>
    {
      if minVal.None? then None
      else Some(Format(LeftOrRightCondition, [Str(fieldName), if includeMin then GteSymbol else GtSymbol]))
    }

    /** The upper bound predicate, null when there is no upper bound. */
    function Right(): Option<string>
    {
      if maxVal.None? then None
      else Some(Format(LeftOrRightCondition, [Str(fieldName), if includeMax then LteSymbol else LtSymbol]))
    }

    /** getFieldRangeCondition. */
    function Text(): Option<string>
    {
      var left, right := Left(), Right();
      if left.None? then right
      else if right.None? then left
      else Some(Format(RangeConditionFormat, [left.value, right.value]))
    }
  }

  /** "{0} {1} ?" with a field and a comparison symbol reads "f sym ?". */
  lemma BoundText(f: string, sym: string)
    ensures Format(LeftOrRightCondition, [f, sym]) == f + " " + sym + " ?"
  {
    var args := [f, sym];
    assert LeftOrRightCondition == Placeholder(0) + (" " + (Placeholder(1) + " ?"));
    FormatPlaceholder(0, " " + (Placeholder(1) + " ?"), args);
    FormatAppendPlain(" ", Placeholder(1) + " ?", args);
    FormatPlaceholder(1, " ?", args);
    FormatPlain(" ?", args);
  }

  /** "{0} AND {1}" joins two predicates with " AND ". */
  lemma JoinedText(l: string, r: string)
    ensures Format(RangeConditionFormat, [l, r]) == l + " AND " + r
  {
    var args := [l, r];
    assert RangeConditionFormat == Placeholder(0) + (" AND " + Placeholder(1));
    FormatPlaceholder(0, " AND " + Placeholder(1), args);
    FormatAppendPlain(" AND ", Placeholder(1), args);
    FormatPlaceholder(1, "", args);
    assert Placeholder(1) + "" == Placeholder(1);
  }

  /**
   * The range condition text: "f >= ?" or "f > ?" for a lower bound, "f <= ?"
   * or "f < ?" for an upper bound, both joined by " AND ", and null without
   * bounds.
   */
  lemma RangeConditionText<T>(c: RangeCondition<T>)
    ensures c.Text().None? <==> c.minVal.None? && c.maxVal.None?
    ensures var f := Str(c.fieldName);
      var l := f + " " + (if c.includeMin then ">=" else ">") + " ?";
      var r := f + " " + (if c.includeMax then "<=" else "<") + " ?";
      (c.minVal.Some? && c.maxVal.None? ==> c.Text() == Some(l))
      && (c.minVal.None? && c.maxVal.Some? ==> c.Text() == Some(r))
      && (c.minVal.Some? && c.maxVal.Some? ==> c.Text() == Some(l + " AND " + r))
  {
    var f := Str(c.fieldName);
    BoundText(f, if c.includeMin then GteSymbol else GtSymbol);
    BoundText(f, if c.includeMax then LteSymbol else LtSymbol);
    if c.minVal.Some? && c.maxVal.Some? {
      JoinedText(c.Left().value, c.Right().value);
    }
  }

  /** Two range conditions that differ only in their bound values print the same text. */
  lemma RangeConditionIgnoresValues<T>(c: RangeCondition<T>, d: RangeCondition<T>)
    requires c.fieldName == d.fieldName && c.includeMin == d.includeMin && c.includeMax == d.includeMax
    requires c.minVal.None? == d.minVal.None? && c.maxVal.None? == d.maxVal.None?
    ensures c.Text() == d.Text()
  {
  }

  function BoundCount<T>(c: RangeCondition<T>): nat
  {
    (if c.minVal.Some? then 1 else 0) + (if c.maxVal.Some? then 1 else 0)
  }

  /** A bound predicate "f sym ?" holds one placeholder when f holds none. */
  lemma BoundPlaceholder(f: string, sym: string)
    requires Lacks(f, '?') && Lacks(sym, '?')
    ensures Count(f + " " + sym + " ?", '?') == 1
  {
    var body := f + " " + sym + " ";
    assert f + " " + sym + " ?" == body + "?";
    assert Lacks(body, '?');
    CountAbsent(body, '?');
    CountAppend(body, "?", '?');
  }

  /** One placeholder per bound present, provided the field name holds no '?'. */
  lemma RangeConditionPlaceholders<T>(c: RangeCondition<T>)
    requires Lacks(Str(c.fieldName), '?')
    ensures c.Text().Some? ==> Count(c.Text().value, '?') == BoundCount(c)
  {
    RangeConditionText(c);
    var f := Str(c.fieldName);
    var lsym := if c.includeMin then ">=" else ">";
    var rsym := if c.includeMax then "<=" else "<";
    BoundPlaceholder(f, lsym);
    BoundPlaceholder(f, rsym);
    if c.minVal.Some? && c.maxVal.Some? {
      var l, r := f + " " + lsym + " ?", f + " " + rsym + " ?";
      CountAbsent(" AND ", '?');
      CountAppend(l, " AND ", '?');
      CountAppend(l + " AND ", r, '?');
    }
  }

  // ---------------------------------------------------------------------------
  // SQLOrder
  // ---------------------------------------------------------------------------

  const DescType: string := "desc"
  const IncType: string := ""
  const OrderClauseFormat: string := " order by {0} {1}"

  /** getOrderClause on a field and type; a null type prints as "". */
  function OrderClauseOf(orderField: Option<string>, orderType: Option<string>): string
  {
    Format(OrderClauseFormat, [Str(orderField), if orderType.None? then "" else orderType.value])
  }

  lemma OrderClauseFormatShape()
    ensures OrderClauseFormat == " order by " + (Placeholder(0) + (" " + Placeholder(1)))
  {
  }

  lemma FormatTwoArgs(a0: string, a1: string)
    ensures Format(Placeholder(0) + (" " + Placeholder(1)), [a0, a1]) == a0 + " " + a1
  {
    var args := [a0, a1];
    var p1 := Placeholder(1);
    FormatPlaceholder(1, "", args);
    assert p1 + "" == p1;
    FormatAppendPlain(" ", p1, args);
    FormatPlaceholder(0, " " + p1, args);
  }

  /** The clause reads " order by f t", so an ascending order ends in a space. */
  lemma OrderClauseText(orderField: Option<string>, orderType: Option<string>)
    ensures OrderClauseOf(orderField, orderType)
         == " order by " + Str(orderField) + " " + (if orderType.None? then "" else orderType.value)
  {
    var a0, a1 := Str(orderField), if orderType.None? then "" else orderType.value;
    var body := Placeholder(0) + (" " + Placeholder(1));
    OrderClauseFormatShape();
    FormatTwoArgs(a0, a1);
    FormatAppendPlain(" order by ", body, [a0, a1]);
    ConcatAssoc(" order by ", a0 + " ", a1);
    ConcatAssoc(" order by ", a0, " ");
  }

  lemma AscendingClauseEndsWithSpace(field: string)
    ensures var c := OrderClauseOf(Some(field), Some(IncType));
      c != [] && c[|c| - 1] == ' '
  {
    OrderClauseText(Some(field), Some(IncType));
  }

  /** SQLOrder: an order field and type, both settable after creation. */
  class SqlOrder {
    var orderField: Option<string>
    var orderType: Option<string>

    constructor(orderField: Option<string>, orderType: Option<string>)
      ensures this.orderField == orderField && this.orderType == orderType
    {
      this.orderField := orderField;
      this.orderType := orderType;
    }

    /** getOrderClause. */
    function OrderClause(): string
      reads this
    {
      OrderClauseOf(orderField, orderType)
    }

    /** setOrderField: overwrites the field, without validation. */
    method SetOrderField(orderField: Option<string>)
      modifies this
      ensures this.orderField == orderField && orderType == old(orderType)
    {
      this.orderField := orderField;
    }

    /** setOrderType: overwrites the type, without validation. */
    method SetOrderType(orderType: Option<string>)
      modifies this
      ensures this.orderType == orderType && orderField == old(orderField)
    {
      this.orderType := orderType;
    }
  }

  predicate NullOrEmpty(field: Option<string>) { field.None? || field.value == "" }

  /** createDescOrder: null for a null or empty field, else a descending order. */
  method CreateDescOrder(field: Option<string>) returns (o: SqlOrder?)
    ensures o == null <==> NullOrEmpty(field)
    ensures o != null ==> fresh(o) && o.orderField == field && o.orderType == Some(DescType)
  {
    if NullOrEmpty(field) {
      return null;
    }
    o := new SqlOrder(field, Some(DescType));
  }

  /** createOrder(field): null for a null or empty field, else an ascending order. */
  method CreateOrder(field: Option<string>) returns (o: SqlOrder?)
    ensures o == null <==> NullOrEmpty(field)
    ensures o != null ==> fresh(o) && o.orderField == field && o.orderType == Some(IncType)
  {
    if NullOrEmpty(field) {
      return null;
    }
    o := new SqlOrder(field, Some(IncType));
  }

  /** createOrder(field, type): descending only when the type is exactly "desc". */
  method CreateOrderOfType(field: Option<string>, orderType: Option<string>) returns (o: SqlOrder?)
    ensures o == null <==> NullOrEmpty(field)
    ensures o != null ==>
              fresh(o) && o.orderField == field
              && o.orderType == Some(if orderType == Some(DescType) then DescType else IncType)
  {
    if NullOrEmpty(field) {
      return null;
    }
    if orderType == Some(DescType) {
      o := CreateDescOrder(field);
    } else {
      o := CreateOrder(field);
    }
  }
}
