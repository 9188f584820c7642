/**
 * The fixed MessageFormat patterns the provider appends to its select and
 * count texts, and what they become once their arguments are substituted.
 */
module SqlPatterns {
  import opened JavaLang

  const ByFieldPattern: string := "where {0} {1} {2}"
  const ByFieldRangePattern: string := "where {0} and {1} {2} {3}"
  const CountByFieldPattern: string := " where {0}"
  const CountByFieldRangePattern: string := " where {0} and {1}"

  lemma ByFieldShape()
    ensures ByFieldPattern == "where " + (Placeholder(0) + (" " + (Placeholder(1) + (" " + Placeholder(2)))))
  {
  }

  lemma ByFieldRangeShape()
    ensures ByFieldRangePattern
         == "where " + (Placeholder(0) + (" and " + (Placeholder(1) + (" " + (Placeholder(2) + (" " + Placeholder(3)))))))
  {
  }

  lemma CountByFieldShape()
    ensures CountByFieldPattern == " where " + Placeholder(0)
  {
  }

  lemma CountByFieldRangeShape()
    ensures CountByFieldRangePattern == " where " + (Placeholder(0) + (" and " + Placeholder(1)))
  {
  }

  lemma FormatThree(args: seq<string>)
    requires |args| == 3
    ensures Format(Placeholder(0) + (" " + (Placeholder(1) + (" " + Placeholder(2)))), args)
         == args[0] + (" " + (args[1] + (" " + args[2])))
  {
    FormatPair(1, " ", 2, args);
    FormatArgThen(0, " ", Placeholder(1) + (" " + Placeholder(2)), args);
  }

  /** "where {0} {1} {2}": condition, order clause, limit clause. */
  lemma FormatByField(args: seq<string>)
    requires |args| == 3
    ensures Format(ByFieldPattern, args) == "where " + (args[0] + (" " + (args[1] + (" " + args[2]))))
  {
    ByFieldShape();
    FormatThree(args);
    FormatAppendPlain("where ", Placeholder(0) + (" " + (Placeholder(1) + (" " + Placeholder(2)))), args);
  }

  lemma FormatRangeTail(args: seq<string>)
    requires |args| == 4
    ensures Format(Placeholder(1) + (" " + (Placeholder(2) + (" " + Placeholder(3)))), args)
         == args[1] + (" " + (args[2] + (" " + args[3])))
  {
    FormatPair(2, " ", 3, args);
    FormatArgThen(1, " ", Placeholder(2) + (" " + Placeholder(3)), args);
  }

  lemma FormatRangeBody(args: seq<string>)
    requires |args| == 4
    ensures Format(Placeholder(0) + (" and " + (Placeholder(1) + (" " + (Placeholder(2) + (" " + Placeholder(3)))))), args)
         == args[0] + (" and " + (args[1] + (" " + (args[2] + (" " + args[3])))))
  {
    FormatRangeTail(args);
    FormatArgThen(0, " and ", Placeholder(1) + (" " + (Placeholder(2) + (" " + Placeholder(3)))), args);
  }

  /** "where {0} and {1} {2} {3}": condition, range condition, order clause, limit clause. */
  lemma FormatByFieldRange(args: seq<string>)
    requires |args| == 4
    ensures Format(ByFieldRangePattern, args)
         == "where " + (args[0] + (" and " + (args[1] + (" " + (args[2] + (" " + args[3]))))))
  {
    ByFieldRangeShape();
    FormatRangeBody(args);
    FormatAppendPlain("where ", Placeholder(0) + (" and " + (Placeholder(1) + (" " + (Placeholder(2) + (" " + Placeholder(3)))))), args);
  }

  /** " where {0}": one condition. */
  lemma FormatWhereOne(args: seq<string>)
    requires |args| == 1
    ensures Format(CountByFieldPattern, args) == " where " + args[0]
  {
    CountByFieldShape();
    FormatLast(0, args);
    FormatAppendPlain(" where ", Placeholder(0), args);
  }

  /** " where {0} and {1}": condition and range condition. */
  lemma FormatWhereTwo(args: seq<string>)
    requires |args| == 2
    ensures Format(CountByFieldRangePattern, args) == " where " + (args[0] + (" and " + args[1]))
  {
    CountByFieldRangeShape();
    FormatPair(0, " and ", 1, args);
    FormatAppendPlain(" where ", Placeholder(0) + (" and " + Placeholder(1)), args);
  }

  /** A plain text followed by a pattern: the text is copied, the pattern filled. */
  lemma FilledByField(s: string, args: seq<string>)
    requires Plain(s) && |args| == 3
    ensures Format(s + ByFieldPattern, args) == s + ("where " + (args[0] + (" " + (args[1] + (" " + args[2])))))
  {
    FormatByField(args);
    FormatAppendPlain(s, ByFieldPattern, args);
  }

  lemma FilledByFieldRange(s: string, args: seq<string>)
    requires Plain(s) && |args| == 4
    ensures Format(s + ByFieldRangePattern, args)
         == s + ("where " + (args[0] + (" and " + (args[1] + (" " + (args[2] + (" " + args[3])))))))
  {
    FormatByFieldRange(args);
    FormatAppendPlain(s, ByFieldRangePattern, args);
  }

  lemma FilledCountByField(s: string, args: seq<string>)
    requires Plain(s) && |args| == 1
    ensures Format(s + CountByFieldPattern, args) == s + (" where " + args[0])
  {
    FormatWhereOne(args);
    FormatAppendPlain(s, CountByFieldPattern, args);
  }

  lemma FilledCountByFieldRange(s: string, args: seq<string>)
    requires Plain(s) && |args| == 2
    ensures Format(s + CountByFieldRangePattern, args) == s + (" where " + (args[0] + (" and " + args[1])))
  {
    FormatWhereTwo(args);
    FormatAppendPlain(s, CountByFieldRangePattern, args);
  }
}
