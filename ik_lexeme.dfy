/**
 * The IK segmenter's value types: character classes, lexemes, the sorted
 * duplicate-free lexeme set (QuickSortSet) and the lexeme path (LexemePath).
 * Lexeme, QuickSortSet, LexemePath and CharacterUtil are not part of this
 * model's sources. This module gives them only the behaviour of IK Analyzer's
 * own classes that the analyzer core depends on: a lexeme is a span of the buffer, sets are kept without two
 * entries of the same span in IK Analyzer's Lexeme order (by begin, and at one
 * begin the longer lexeme first), and a path crosses a lexeme when the lexeme
 * overlaps the path's span.
 */
module IkLexeme {
  import opened JavaLang

  /** CharacterUtil's classes of a buffer char. */
  datatype CharType = CharUseless | CharArabic | CharEnglish | CharChinese | CharOtherCjk

  /** A letter or digit: the classes the driver merges into one run. */
  predicate IsLetter(t: CharType) { t == CharArabic || t == CharEnglish }

  /** Lexeme's types. */
  datatype LexemeType =
    | TypeUnknown | TypeEnglish | TypeArabic | TypeLetter | TypeCnWord
    | TypeCnChar | TypeOtherCjk | TypeCNum | TypeCount | TypeCQuan

  /** A lexeme: the stream offset of its buffer, its span in the buffer, its type and its text once output. */
  datatype Lexeme = Lexeme(offset: int, begin: int, length: int, lexemeType: LexemeType, text: Option<string>)

  /** The buffer position just after the lexeme. */
  function End(l: Lexeme): int { l.begin + l.length }

  /** A lexeme that fits a buffer of the given size. */
  predicate InBuffer(l: Lexeme, size: int)
  {
    0 <= l.begin && 1 <= l.length && End(l) <= size
  }

  /** The set order: by begin, and at one begin the longer lexeme first. */
  predicate Before(a: Lexeme, b: Lexeme)
  {
    a.begin < b.begin || (a.begin == b.begin && a.length > b.length)
  }

  /** Two lexemes over the same span count as one set entry. */
  predicate SameSpan(a: Lexeme, b: Lexeme)
  {
    a.begin == b.begin && a.length == b.length
  }

  /** Strictly increasing in set order, hence no two entries over one span. */
  predicate Sorted(s: seq<Lexeme>)
  {
    forall i, j :: 0 <= i < j < |s| ==> Before(s[i], s[j])
  }

  /** Whether some entry lies over l's span. */
  predicate HasSpan(s: seq<Lexeme>, l: Lexeme)
  {
    exists i :: 0 <= i < |s| && SameSpan(s[i], l)
  }

  /** A sorted set stays sorted when an entry after all of it is appended. */
  lemma SortedSnoc(m: seq<Lexeme>, x: Lexeme)
    requires Sorted(m) && forall y :: y in m ==> Before(y, x)
    ensures Sorted(m + [x])
  {
    assert forall i :: 0 <= i < |m| ==> m[i] in m;
  }

  /**
   * QuickSortSet.addLexeme: the lexeme is inserted at its place in set order,
   * unless an entry over the same span is there already.
   */
  function Insert(s: seq<Lexeme>, l: Lexeme): (r: seq<Lexeme>)
    requires Sorted(s)
    ensures Sorted(r)
    ensures forall x :: x in r ==> x in s || x == l
  {
    if s == [] then [l]
    else
      var last := s[|s| - 1];
      var init := s[..|s| - 1];
      if Before(last, l) then
        assert forall x :: x in s ==> x == last || x in init;
        SortedSnoc(s, l);
        s + [l]
      else if SameSpan(last, l) then s
      else
        var m := Insert(init, l);
        assert forall x :: x in init ==> Before(x, last) by {
          forall x | x in init ensures Before(x, last) {
            var i :| 0 <= i < |init| && init[i] == x;
          }
        }
        SortedSnoc(m, last);
        m + [last]
  }

  /** The entries after addLexeme: unchanged when the span is taken, one more lexeme otherwise. */
  lemma {:induction false} InsertContents(s: seq<Lexeme>, l: Lexeme)
    requires Sorted(s)
    ensures HasSpan(s, l) ==> Insert(s, l) == s
    ensures !HasSpan(s, l) ==> multiset(Insert(s, l)) == multiset(s) + multiset{l}
  {
    if s != [] {
      var last := s[|s| - 1];
      var init := s[..|s| - 1];
      assert s == init + [last];
      if Before(last, l) {
        assert !HasSpan(s, l) by {
          forall i | 0 <= i < |s| ensures !SameSpan(s[i], l) {
            assert i == |s| - 1 || Before(s[i], last);
          }
        }
      } else if !SameSpan(last, l) {
        InsertContents(init, l);
        assert HasSpan(s, l) <==> HasSpan(init, l) by {
          if HasSpan(s, l) {
            var i :| 0 <= i < |s| && SameSpan(s[i], l);
            assert i < |s| - 1 && SameSpan(init[i], l);
          }
        }
      }
    }
  }

  /** Every lexeme of p is one of pool's. */
  predicate From(p: seq<Lexeme>, pool: seq<Lexeme>)
  {
    forall x :: x in p ==> x in pool
  }

  /** addLexeme keeps every entry and adds nothing but the lexeme. */
  lemma InsertKeeps(s: seq<Lexeme>, l: Lexeme)
    requires Sorted(s)
    ensures From(s, Insert(s, l)) && From(Insert(s, l), s + [l])
  {
    InsertContents(s, l);
    if !HasSpan(s, l) {
      forall x | x in s ensures x in Insert(s, l) {
        assert x in multiset(s);
      }
    }
  }

  /** After addLexeme the lexeme's span is in the set, added or already there. */
  lemma InsertHasSpan(s: seq<Lexeme>, l: Lexeme)
    requires Sorted(s)
    ensures HasSpan(Insert(s, l), l)
  {
    InsertContents(s, l);
    if !HasSpan(s, l) {
      assert l in multiset(Insert(s, l));
      var i :| 0 <= i < |Insert(s, l)| && Insert(s, l)[i] == l;
    }
  }

  /** A span stays present when the entries are kept. */
  lemma FromHasSpan(s: seq<Lexeme>, s2: seq<Lexeme>, l: Lexeme)
    requires From(s, s2) && HasSpan(s, l)
    ensures HasSpan(s2, l)
  {
    var i :| 0 <= i < |s| && SameSpan(s[i], l);
    assert s[i] in s;
    var j :| 0 <= j < |s2| && s2[j] == s[i];
  }

  /** A lexeme after every entry is appended. */
  lemma InsertLast(s: seq<Lexeme>, l: Lexeme)
    requires Sorted(s) && (s == [] || Before(s[|s| - 1], l))
    ensures Insert(s, l) == s + [l]
  {
  }

  /** A lexeme before every entry is put in front. */
  lemma {:induction false} InsertFirst(s: seq<Lexeme>, l: Lexeme)
    requires Sorted(s) && s != [] && Before(l, s[0])
    ensures Insert(s, l) == [l] + s
  {
    var last := s[|s| - 1];
    var init := s[..|s| - 1];
    assert Before(l, last) by {
      assert |s| == 1 || Before(s[0], last);
    }
    if init != [] {
      InsertFirst(init, l);
    }
  }

  // ---------------------------------------------------------------------------
  // LexemePath: a QuickSortSet with the span it covers
  // ---------------------------------------------------------------------------

  /** A lexeme path's entries, in set order. */
  type Path = seq<Lexeme>

  /** The path's begin: its first lexeme's begin, -1 while empty. */
  function PathBegin(p: Path): int
  {
    if p == [] then -1 else p[0].begin
  }

  /** The path's end: the furthest end of its lexemes, -1 while empty. */
  function PathEnd(p: Path): (r: int)
    ensures p != [] ==> forall i :: 0 <= i < |p| ==> End(p[i]) <= r
    ensures p != [] ==> exists i :: 0 <= i < |p| && End(p[i]) == r
  {
    if p == [] then -1
    else if |p| == 1 then End(p[0])
    else
      var e := PathEnd(p[..|p| - 1]);
      assert forall i :: 0 <= i < |p| - 1 ==> p[..|p| - 1][i] == p[i];
      if End(p[|p| - 1]) > e then End(p[|p| - 1]) else e
  }

  /** LexemePath.getPathLength: the length of the span the path covers. */
  function PathLength(p: Path): int
  {
    PathEnd(p) - PathBegin(p)
  }

  /** LexemePath.checkCross: l starts inside the path's span, or the path starts inside l. */
  predicate CheckCross(p: Path, l: Lexeme)
  {
    p != [] &&
    ((PathBegin(p) <= l.begin && l.begin < PathEnd(p)) || (l.begin <= PathBegin(p) && PathBegin(p) < End(l)))
  }

  /** For lexemes of positive length, crossing is overlap of the two spans. */
  lemma CrossIsOverlap(p: Path, l: Lexeme)
    requires p != [] && 1 <= l.length && forall i :: 0 <= i < |p| ==> 1 <= p[i].length
    ensures CheckCross(p, l) <==> l.begin < PathEnd(p) && PathBegin(p) < End(l)
  {
    assert End(p[0]) <= PathEnd(p);
  }

  /** LexemePath.addCrossLexeme: the first lexeme, or one that crosses the path, joins it. */
  function AddCrossLexeme(p: Path, l: Lexeme): (Path, bool)
    requires Sorted(p)
  {
    if p == [] then ([l], true)
    else if CheckCross(p, l) then (Insert(p, l), true)
    else (p, false)
  }

  /** LexemePath.addNotCrossLexeme: the first lexeme, or one that does not cross the path, joins it. */
  function AddNotCrossLexeme(p: Path, l: Lexeme): (Path, bool)
    requires Sorted(p)
  {
    if p == [] then ([l], true)
    else if CheckCross(p, l) then (p, false)
    else (Insert(p, l), true)
  }

  /** LexemePath.removeTail. */
  function RemoveTail(p: Path): Path
    requires p != []
  {
    p[..|p| - 1]
  }

  /** A path of lexemes that pairwise do not overlap, in order. */
  predicate Disjoint(p: Path)
  {
    forall i, j :: 0 <= i < j < |p| ==> End(p[i]) <= p[j].begin
  }

  /** Every lexeme has positive length. */
  predicate Positive(p: seq<Lexeme>)
  {
    forall i :: 0 <= i < |p| ==> 1 <= p[i].length
  }

  /** Disjoint lexemes of positive length are in set order. */
  lemma DisjointSorted(p: Path)
    requires Disjoint(p) && Positive(p)
    ensures Sorted(p)
  {
    forall i, j | 0 <= i < j < |p| ensures Before(p[i], p[j]) {
      assert End(p[i]) <= p[j].begin;
    }
  }

  /** A lexeme a non-crossing path does not cross lies wholly before or wholly after it. */
  lemma {:induction false} NotCrossApart(p: Path, l: Lexeme)
    requires Disjoint(p) && Positive(p) && p != [] && 1 <= l.length && !CheckCross(p, l)
    ensures End(l) <= PathBegin(p) || PathEnd(p) <= l.begin
  {
    CrossIsOverlap(p, l);
  }

  /**
   * A non-crossing path stays non-crossing: a lexeme addNotCrossLexeme
   * accepts overlaps none of the path's lexemes.
   */
  lemma AddNotCrossDisjoint(p: Path, l: Lexeme)
    requires Disjoint(p) && Positive(p) && 1 <= l.length
    ensures Sorted(p)
    ensures var (q, ok) := AddNotCrossLexeme(p, l);
      Disjoint(q) && Positive(q) && (ok <==> !CheckCross(p, l)) && (ok ==> l in q) && (!ok ==> q == p)
  {
    DisjointSorted(p);
    if p != [] && !CheckCross(p, l) {
      NotCrossApart(p, l);
      if End(l) <= PathBegin(p) {
        assert Before(l, p[0]);
        InsertFirst(p, l);
        assert forall j :: 0 < j < |p| ==> p[0].begin <= p[j].begin;
      } else {
        assert End(p[|p| - 1]) <= PathEnd(p);
        assert Before(p[|p| - 1], l);
        InsertLast(p, l);
        assert forall i :: 0 <= i < |p| ==> End(p[i]) <= PathEnd(p);
      }
    }
  }

  /** Removing the tail keeps a path non-crossing. */
  lemma RemoveTailDisjoint(p: Path)
    requires p != [] && Disjoint(p) && Positive(p)
    ensures Disjoint(RemoveTail(p)) && Positive(RemoveTail(p)) && |RemoveTail(p)| == |p| - 1
  {
  }

  /** QuickSortSet.pollFirst: the least entry and the rest, null when empty. */
  function PollFirst(s: seq<Lexeme>): (r: (Option<Lexeme>, seq<Lexeme>))
    ensures s == [] ==> r == (None, [])
    ensures s != [] ==> r.0 == Some(s[0]) && [s[0]] + r.1 == s
  {
    if s == [] then (None, []) else (Some(s[0]), s[1..])
  }
}
