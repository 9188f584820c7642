/**
 * The two SQL text helpers of AbstractDao: the "where" clause built from a
 * list of query parts, and the "(?,..,?)" list of an "in" predicate.
 */
module Dao {
  import opened JavaLang
  import opened SqlProvider

  // ---------------------------------------------------------------------------
  // toSQLClauseStr
  // ---------------------------------------------------------------------------

  /** The query strings toSQLClauseStr keeps: the non-null, non-empty ones, in order. */
  function Kept(qs: seq<Option<string>>): seq<string>
  {
    if qs == [] then []
    else
      var q := qs[|qs| - 1];
      Kept(qs[..|qs| - 1]) + (if q.Some? && q.value != "" then [q.value] else [])
  }

  /**
   * AbstractDao.toSQLClauseStr over the query strings of the list: a null or
   * empty list gives ""; otherwise "where " and the kept parts joined with
   * " and "; when no part is kept, substring(0, -1) throws.
   */
  method ToSQLClauseStr(qs: Option<seq<Option<string>>>) returns (r: Result<string>)
    ensures qs.None? || qs.value == [] ==> r == Ok("")
    ensures qs.Some? && Kept(qs.value) != [] ==> r == Ok("where " + Join(Kept(qs.value), " and "))
    ensures qs.Some? && qs.value != [] && Kept(qs.value) == [] ==> r == Throws(StringIndexOutOfBoundsException)
  {
    if qs.None? || |qs.value| == 0 {
      return Ok("");
    }
    var list := qs.value;
    var sb := "where ";
    var i := 0;
    while i < |list|
      invariant 0 <= i <= |list|
      invariant sb == "where " + Terminated(Kept(list[..i]), " and ")
    {
      var cl := list[i];
      KeptStep(list, i);
      if cl.Some? && cl.value != "" {
        sb := sb + cl.value + " and ";
      }
      i := i + 1;
    }
    assert list[..i] == list;
    ClauseCut(Kept(list));
    r := Substring(sb, 0, LastIndexOfText(sb, " and "));
  }

  /** One turn of toSQLClauseStr's loop: the next part, when kept, is appended with " and ". */
  lemma KeptStep(list: seq<Option<string>>, i: int)
    requires 0 <= i < |list|
    ensures var cl := list[i];
      "where " + Terminated(Kept(list[..i + 1]), " and ")
      == "where " + Terminated(Kept(list[..i]), " and ") + (if cl.Some? && cl.value != "" then cl.value + " and " else "")
  {
    var cl := list[i];
    assert list[..i + 1][..i] == list[..i];
    if cl.Some? && cl.value != "" {
      assert Kept(list[..i + 1]) == Kept(list[..i]) + [cl.value];
      TerminatedSnoc(Kept(list[..i]), cl.value, " and ");
    } else {
      assert Kept(list[..i + 1]) == Kept(list[..i]);
    }
  }

  /** Cutting at the last " and ": the kept parts joined, or, with none kept, an index of -1 that throws. */
  lemma ClauseCut(kept: seq<string>)
    ensures var sb := "where " + Terminated(kept, " and ");
      Substring(sb, 0, LastIndexOfText(sb, " and "))
      == if kept == [] then Throws(StringIndexOutOfBoundsException) else Ok("where " + Join(kept, " and "))
  {
    if kept != [] {
      TerminatedIsJoinPlusSep(kept, " and ");
      var w := "where " + Join(kept, " and ");
      assert "where " + Terminated(kept, " and ") == w + " and ";
      CutTrailingAnd(w);
    } else {
      NoAndInWhere();
    }
  }

  lemma NoAndInWhere()
    ensures LastIndexOfText("where " + Terminated([], " and "), " and ") == -1
  {
    var s := "where ";
    assert "where " + Terminated([], " and ") == s;
    assert s[1..] != " and " by { assert s[1..][0] == 'h'; }
    assert s[..5][0..] != " and " by { assert s[..5][0] == 'w'; }
    assert LastIndexOfText(s[..5][..4], " and ") == -1;
  }

  lemma CutTrailingAnd(s: string)
    ensures LastIndexOfText(s + " and ", " and ") == |s|
    ensures Substring(s + " and ", 0, |s|) == Ok(s)
  {
    var t := s + " and ";
    assert t[|t| - 5..] == " and ";
    assert t[..|s|] == s;
  }

  /** A kept part comes from the list and is not empty; every non-empty part is kept. */
  lemma {:induction false} KeptMembers(qs: seq<Option<string>>)
    ensures forall c :: c in Kept(qs) ==> c != "" && Some(c) in qs
    ensures forall i :: 0 <= i < |qs| && qs[i].Some? && qs[i].value != "" ==> qs[i].value in Kept(qs)
  {
    if qs != [] {
      var n := |qs| - 1;
      var init := qs[..n];
      KeptMembers(init);
      forall c | c in Kept(qs)
        ensures c != "" && Some(c) in qs
      {
        if c in Kept(init) {
          assert Some(c) in init;
        } else {
          assert qs[n] == Some(c);
        }
      }
      forall i | 0 <= i < |qs| && qs[i].Some? && qs[i].value != ""
        ensures qs[i].value in Kept(qs)
      {
        if i < n {
          assert qs[i] == init[i];
        }
      }
    }
  }

  // ---------------------------------------------------------------------------
  // generateInClause
  // ---------------------------------------------------------------------------

  /** AbstractDao.generateInClause: "" for num <= 0, otherwise "(" then num - 1 "?," then "?)". */
  method GenerateInClause(num: int) returns (r: string)
    ensures num <= 0 ==> r == ""
    ensures num > 0 ==> r == "(" + Join(Marks(num), ",") + ")"
  {
    if num <= 0 {
      return "";
    }
    var s := "(";
    var i := 0;
    while i < num - 1
      invariant 0 <= i <= num - 1
      invariant s == "(" + Repeat("?,", i)
    {
      RepeatSnoc("?,", i);
      s := s + "?,";
      i := i + 1;
    }
    InClauseMarks(num);
    r := s + "?)";
  }

  /** n - 1 copies of "?," and a last "?" are the n markers joined with ','. */
  lemma {:induction false} InClauseMarks(n: nat)
    requires n > 0
    ensures "(" + Repeat("?,", n - 1) + "?)" == "(" + Join(Marks(n), ",") + ")"
  {
    RepeatMarks(n);
    assert "(" + Repeat("?,", n - 1) + "?)" == "(" + (Repeat("?,", n - 1) + "?") + ")";
  }

  lemma {:induction false} RepeatMarks(n: nat)
    requires n > 0
    ensures Repeat("?,", n - 1) + "?" == Join(Marks(n), ",")
  {
    if n > 1 {
      RepeatMarks(n - 1);
      RepeatSnoc("?,", n - 2);
      assert Marks(n) == Marks(n - 1) + ["?"];
      JoinSnoc(Marks(n - 1), "?", ",");
      calc {
        Repeat("?,", n - 1) + "?";
        (Repeat("?,", n - 2) + "?,") + "?";
        (Repeat("?,", n - 2) + "?") + "," + "?";
      }
    }
  }

  /** The in-list holds num markers and is 2 * num + 1 characters long. */
  lemma InClauseCounts(num: nat)
    requires num > 0
    ensures Count("(" + Join(Marks(num), ",") + ")", '?') == num
    ensures |"(" + Join(Marks(num), ",") + ")"| == 2 * num + 1
  {
    InClauseMarks(num);
    var rep := Repeat("?,", num - 1);
    RepeatCount("?,", num - 1, '?');
    assert Count("?,", '?') == 1 && Count("(", '?') == 0 && Count("?)", '?') == 1;
    CountAppend("(", rep, '?');
    CountAppend("(" + rep, "?)", '?');
  }
}
