/**
 * KeywordArbitrator: groups the candidate lexemes of a pass into crossing
 * paths and, in smart mode, replaces each ambiguous path by the best of a
 * family of non-crossing options. The path order (LexemePath.compareTo) is
 * not part of this model's sources and is a parameter: a strict order on
 * paths, so TreeSet.first is the earliest added of the least options.
 */
module IkArbitrator {
  import opened JavaLang
  import opened IkLexeme
  import opened IkContext

  /**
   * LexemePath.compareTo(a, b) < 0. LexemePath is not part of this model's
   * sources, so the order is a parameter; it is assumed to be the strict order
   * TreeSet.first ranks the options by, and only its being a strict order is
   * used.
   */
  type PathLess = (Path, Path) -> bool

  /** A strict order: irreflexive and transitive. */
  ghost predicate StrictOrder(less: PathLess)
  {
    && (forall a :: !less(a, a))
    && (forall a, b, c :: less(a, b) && less(b, c) ==> less(a, c))
  }

  /** A prefix of a non-crossing path is non-crossing. */
  lemma PrefixDisjoint(p: Path, k: int)
    requires Disjoint(p) && Positive(p) && 0 <= k <= |p|
    ensures Disjoint(p[..k]) && Positive(p[..k])
  {
  }

  // ---------------------------------------------------------------------------
  // backPath
  // ---------------------------------------------------------------------------

  /** backPath: the tail is removed while the path crosses l. */
  function Back(p: Path, l: Lexeme): (r: Path)
    ensures |r| <= |p| && r == p[..|r|]
    ensures !CheckCross(r, l)
    decreases |p|
  {
    if CheckCross(p, l) then Back(RemoveTail(p), l) else p
  }

  /** It stops at the longest prefix that does not cross l: every longer prefix crosses. */
  lemma {:induction false} BackLongest(p: Path, l: Lexeme)
    ensures forall k :: |Back(p, l)| < k <= |p| ==> CheckCross(p[..k], l)
    decreases |p|
  {
    if CheckCross(p, l) {
      var q := RemoveTail(p);
      BackLongest(q, l);
      forall k | |Back(p, l)| < k <= |p| ensures CheckCross(p[..k], l) {
        if k < |p| {
          assert q[..k] == p[..k];
        } else {
          assert p[..k] == p;
        }
      }
    }
  }

  /** backPath on the option object. */
  method BackPath(l: Lexeme, option: Path) returns (r: Path)
    ensures r == Back(option, l)
  {
    r := option;
    while CheckCross(r, l)
      invariant Back(r, l) == Back(option, l)
      decreases |r|
    {
      r := RemoveTail(r);
    }
  }

  // ---------------------------------------------------------------------------
  // forwardPath
  // ---------------------------------------------------------------------------

  /**
   * forwardPath from cell j: each cell's lexeme is offered to the option with
   * addNotCrossLexeme; the cells refused are pushed on the conflict stack
   * (the stack as a sequence, the top last).
   */
  function Forward(cells: seq<Lexeme>, j: int, option: Path, stack: seq<int>): (r: (Path, seq<int>))
    requires Positive(cells) && Disjoint(option) && Positive(option) && 0 <= j <= |cells|
    ensures Disjoint(r.0) && Positive(r.0)
    ensures |stack| <= |r.1| && r.1[..|stack|] == stack
    ensures forall i :: |stack| <= i < |r.1| ==> j <= r.1[i] < |cells|
    decreases |cells| - j
  {
    if j == |cells| then (option, stack)
    else
      AddNotCrossDisjoint(option, cells[j]);
      var (o2, ok) := AddNotCrossLexeme(option, cells[j]);
      Forward(cells, j + 1, o2, if ok then stack else stack + [j])
  }

  /** forwardPath keeps what the option held. */
  lemma {:induction false} ForwardGrows(cells: seq<Lexeme>, j: int, option: Path, stack: seq<int>)
    requires Positive(cells) && Disjoint(option) && Positive(option) && 0 <= j <= |cells|
    ensures From(option, Forward(cells, j, option, stack).0)
    decreases |cells| - j
  {
    if j < |cells| {
      AddNotCrossDisjoint(option, cells[j]);
      var (o2, ok) := AddNotCrossLexeme(option, cells[j]);
      ForwardGrows(cells, j + 1, o2, if ok then stack else stack + [j]);
      if ok && option != [] {
        InsertKeeps(option, cells[j]);
      }
    }
  }

  /** forwardPath adds only lexemes of the cells from j on. */
  lemma {:induction false} ForwardFrom(cells: seq<Lexeme>, j: int, option: Path, stack: seq<int>)
    requires Positive(cells) && Disjoint(option) && Positive(option) && 0 <= j <= |cells|
    ensures From(Forward(cells, j, option, stack).0, option + cells[j..])
    decreases |cells| - j
  {
    if j < |cells| {
      AddNotCrossDisjoint(option, cells[j]);
      var (o2, ok) := AddNotCrossLexeme(option, cells[j]);
      ForwardFrom(cells, j + 1, o2, if ok then stack else stack + [j]);
      if ok && option != [] {
        InsertKeeps(option, cells[j]);
      }
      assert From(o2, option + [cells[j]]);
      assert cells[j..] == [cells[j]] + cells[j + 1..];
    }
  }

  /** forwardPath loses no cell: each from j on is taken into the option or pushed as a conflict. */
  lemma {:induction false} ForwardCovers(cells: seq<Lexeme>, j: int, option: Path, stack: seq<int>)
    requires Positive(cells) && Disjoint(option) && Positive(option) && 0 <= j <= |cells|
    ensures forall k :: j <= k < |cells| ==> cells[k] in Forward(cells, j, option, stack).0 || k in Forward(cells, j, option, stack).1
    decreases |cells| - j
  {
    if j < |cells| {
      AddNotCrossDisjoint(option, cells[j]);
      var (o2, ok) := AddNotCrossLexeme(option, cells[j]);
      var st2 := if ok then stack else stack + [j];
      ForwardCovers(cells, j + 1, o2, st2);
      ForwardGrows(cells, j + 1, o2, st2);
      var (o, st) := Forward(cells, j + 1, o2, st2);
      if ok {
        if option != [] {
          InsertContents(option, cells[j]);
          assert cells[j] in multiset(o2);
        }
        assert cells[j] in o;
      } else {
        assert st[..|st2|] == st2 && st2[|stack|] == j;
        assert j in st;
      }
    }
  }

  /** forwardPath on the option object, returning the conflict stack. */
  method ForwardPath(cells: seq<Lexeme>, j: int, option: Path) returns (o: Path, conflictStack: seq<int>)
    requires Positive(cells) && Disjoint(option) && Positive(option) && 0 <= j <= |cells|
    ensures (o, conflictStack) == Forward(cells, j, option, [])
  {
    o := option;
    conflictStack := [];
    var c := j;
    while c < |cells|
      invariant j <= c <= |cells| && Disjoint(o) && Positive(o)
      invariant Forward(cells, c, o, conflictStack) == Forward(cells, j, option, [])
    {
      AddNotCrossDisjoint(o, cells[c]);
      var (o2, ok) := AddNotCrossLexeme(o, cells[c]);
      if !ok {
        conflictStack := conflictStack + [c];
      }
      o := o2;
      c := c + 1;
    }
  }

  // ---------------------------------------------------------------------------
  // judge
  // ---------------------------------------------------------------------------

  /**
   * The options judge adds after the first: for each conflict popped, the
   * option is backed off the conflicting lexeme and run forward from it.
   */
  function Rounds(cells: seq<Lexeme>, option: Path, stack: seq<int>, opts: seq<Path>): (r: seq<Path>)
    requires Positive(cells) && Disjoint(option) && Positive(option)
    requires forall i :: 0 <= i < |stack| ==> 0 <= stack[i] < |cells|
    ensures |r| >= |opts| && r[..|opts|] == opts
    decreases |stack|
  {
    if stack == [] then opts
    else
      var c := stack[|stack| - 1];
      var o1 := Back(option, cells[c]);
      PrefixDisjoint(option, |o1|);
      var o2 := Forward(cells, c, o1, []).0;
      Rounds(cells, o2, stack[..|stack| - 1], opts + [o2])
  }

  /** Every option judge considers: the first forward pass, then one per conflict. */
  function Options(cells: seq<Lexeme>): (r: seq<Path>)
    requires Positive(cells)
    ensures r != []
  {
    var (o, stack) := Forward(cells, 0, [], []);
    Rounds(cells, o, stack, [o])
  }

  /** A path judge may choose: non-crossing, of positive lexemes, from the cells. */
  predicate OptionOk(p: Path, cells: seq<Lexeme>)
  {
    Disjoint(p) && Positive(p) && From(p, cells) && (cells != [] ==> p != [])
  }

  /** A cell the option does not cross is taken by forwardPath from it. */
  lemma ForwardTakes(cells: seq<Lexeme>, j: int, option: Path, stack: seq<int>)
    requires Positive(cells) && Disjoint(option) && Positive(option) && 0 <= j < |cells|
    requires !CheckCross(option, cells[j])
    ensures cells[j] in Forward(cells, j, option, stack).0
  {
    AddNotCrossDisjoint(option, cells[j]);
    var (o2, ok) := AddNotCrossLexeme(option, cells[j]);
    ForwardGrows(cells, j + 1, o2, if ok then stack else stack + [j]);
  }

  /** Every option is a non-crossing path of the cells' lexemes. */
  lemma {:induction false} RoundsFromCells(cells: seq<Lexeme>, option: Path, stack: seq<int>, opts: seq<Path>)
    requires Positive(cells) && OptionOk(option, cells)
    requires forall i :: 0 <= i < |stack| ==> 0 <= stack[i] < |cells|
    requires forall i :: 0 <= i < |opts| ==> OptionOk(opts[i], cells)
    ensures var r := Rounds(cells, option, stack, opts);
      forall i :: 0 <= i < |r| ==> OptionOk(r[i], cells)
    decreases |stack|
  {
    if stack != [] {
      var c := stack[|stack| - 1];
      var o1 := Back(option, cells[c]);
      PrefixDisjoint(option, |o1|);
      ForwardFrom(cells, c, o1, []);
      ForwardTakes(cells, c, o1, []);
      var o2 := Forward(cells, c, o1, []).0;
      assert From(o1, option);
      assert From(cells[c..], cells);
      assert OptionOk(o2, cells);
      var opts2 := opts + [o2];
      assert forall i :: 0 <= i < |opts2| ==> opts2[i] == o2 || opts2[i] == opts[i];
      RoundsFromCells(cells, o2, stack[..|stack| - 1], opts2);
      assert Rounds(cells, option, stack, opts) == Rounds(cells, o2, stack[..|stack| - 1], opts2);
    }
  }

  /** TreeSet.first over the options in the order added: the earliest of the least. */
  function First(opts: seq<Path>, less: PathLess): (r: Path)
    requires opts != []
    ensures r in opts
    decreases |opts|
  {
    if |opts| == 1 then opts[0]
    else
      var best := First(opts[..|opts| - 1], less);
      if less(opts[|opts| - 1], best) then opts[|opts| - 1] else best
  }

  /** Under a strict order no option is less than the one chosen. */
  lemma {:induction false} FirstIsLeast(opts: seq<Path>, less: PathLess)
    requires opts != [] && StrictOrder(less)
    ensures forall o :: o in opts ==> !less(o, First(opts, less))
    decreases |opts|
  {
    if |opts| > 1 {
      var init := opts[..|opts| - 1];
      FirstIsLeast(init, less);
      assert forall o :: o in opts ==> o in init || o == opts[|opts| - 1];
    }
  }

  /** judge: the best option for the crossing path. */
  method Judge(cells: seq<Lexeme>, less: PathLess) returns (r: Path)
    requires Positive(cells)
    ensures r == First(Options(cells), less)
  {
    var option, lexemeStack := ForwardPath(cells, 0, []);
    var pathOptions := [option];
    while lexemeStack != []
      invariant Disjoint(option) && Positive(option)
      invariant forall i :: 0 <= i < |lexemeStack| ==> 0 <= lexemeStack[i] < |cells|
      invariant Rounds(cells, option, lexemeStack, pathOptions) == Options(cells)
      decreases |lexemeStack|
    {
      var c := lexemeStack[|lexemeStack| - 1];
      lexemeStack := lexemeStack[..|lexemeStack| - 1];
      var backed := BackPath(cells[c], option);
      PrefixDisjoint(option, |backed|);
      var discarded;
      option, discarded := ForwardPath(cells, c, backed);
      pathOptions := pathOptions + [option];
    }
    r := First(pathOptions, less);
  }

  /**
   * What judge returns: one of its options, none of which is less, and a
   * path of the crossing path's own lexemes none of which overlap.
   */
  lemma JudgeMeaning(cells: seq<Lexeme>, less: PathLess)
    requires Positive(cells) && StrictOrder(less)
    ensures var r := First(Options(cells), less);
      && r in Options(cells)
      && (forall o :: o in Options(cells) ==> !less(o, r))
      && OptionOk(r, cells)
  {
    var (o, stack) := Forward(cells, 0, [], []);
    ForwardFrom(cells, 0, [], []);
    if cells != [] {
      ForwardTakes(cells, 0, [], []);
    }
    assert [] + cells[0..] == cells;
    RoundsFromCells(cells, o, stack, [o]);
    assert Options(cells) == Rounds(cells, o, stack, [o]);
    FirstIsLeast(Options(cells), less);
    var opts := Options(cells);
    var r := First(opts, less);
    var i :| 0 <= i < |opts| && opts[i] == r;
    assert OptionOk(r, cells);
  }

  // ---------------------------------------------------------------------------
  // process
  // ---------------------------------------------------------------------------

  /**
   * The crossing paths of process: each candidate in order joins the current
   * path when it crosses it; otherwise the current path is closed and the
   * candidate starts the next one. The last path is closed at the end.
   */
  function Groups(xs: seq<Lexeme>, cur: Path, acc: seq<Path>): (r: seq<Path>)
    requires Sorted(cur)
    ensures |r| > |acc| && r[..|acc|] == acc
    decreases |xs|
  {
    if xs == [] then acc + [cur]
    else
      var (c2, ok) := AddCrossLexeme(cur, xs[0]);
      if ok then Groups(xs[1..], c2, acc) else Groups(xs[1..], [xs[0]], acc + [cur])
  }

  /** The paths one after another. */
  function Flatten(gs: seq<Path>): seq<Lexeme>
  {
    if gs == [] then [] else Flatten(gs[..|gs| - 1]) + gs[|gs| - 1]
  }

  lemma SortedSplit(a: seq<Lexeme>, b: seq<Lexeme>)
    requires Sorted(a + b)
    ensures Sorted(a) && Sorted(b)
    ensures a != [] && b != [] ==> Before(a[|a| - 1], b[0])
  {
    assert forall i :: 0 <= i < |a| ==> a[i] == (a + b)[i];
    assert forall i :: 0 <= i < |b| ==> b[i] == (a + b)[|a| + i];
  }

  /** The next candidate joins the current path or starts a new one; either way the candidates stay one sorted run. */
  lemma AddCrossStep(cur: Path, xs: seq<Lexeme>)
    requires Sorted(cur + xs) && xs != []
    ensures Sorted(cur) && Sorted(xs) && [xs[0]] + xs[1..] == xs
    ensures AddCrossLexeme(cur, xs[0]).1 ==> AddCrossLexeme(cur, xs[0]).0 + xs[1..] == cur + xs
    ensures cur != [] ==> Before(cur[0], xs[0])
  {
    SortedSplit(cur, xs);
    var (c2, ok) := AddCrossLexeme(cur, xs[0]);
    assert xs == [xs[0]] + xs[1..];
    if cur != [] {
      assert cur[0] == (cur + xs)[0] && xs[0] == (cur + xs)[|cur|];
    }
    if ok && cur != [] {
      InsertLast(cur, xs[0]);
      ConcatAssoc(cur, [xs[0]], xs[1..]);
    }
  }

  /** The crossing paths cut the candidates into consecutive runs: nothing lost, added or reordered. */
  lemma {:induction false} GroupsFlatten(xs: seq<Lexeme>, cur: Path, acc: seq<Path>)
    requires Sorted(cur + xs)
    ensures Sorted(cur)
    ensures Flatten(Groups(xs, cur, acc)) == Flatten(acc) + cur + xs
    decreases |xs|
  {
    SortedSplit(cur, xs);
    if xs == [] {
      assert (acc + [cur])[..|acc|] == acc;
    } else {
      AddCrossStep(cur, xs);
      var (c2, ok) := AddCrossLexeme(cur, xs[0]);
      if ok {
        GroupsFlatten(xs[1..], c2, acc);
        ConcatAssoc(Flatten(acc), c2, xs[1..]);
        ConcatAssoc(Flatten(acc), cur, xs);
      } else {
        GroupsFlatten(xs[1..], [xs[0]], acc + [cur]);
        assert (acc + [cur])[..|acc|] == acc;
        ConcatAssoc(Flatten(acc) + cur, [xs[0]], xs[1..]);
      }
    }
  }

  /** Each crossing path ends by the begin of the next. */
  predicate Chain(gs: seq<Path>)
  {
    forall i :: 0 <= i < |gs| - 1 ==> PathEnd(gs[i]) <= PathBegin(gs[i + 1])
  }

  /** A candidate that does not cross the current path, and does not start before it, starts at or after its end. */
  lemma NotCrossAfter(cur: Path, x: Lexeme)
    requires cur != [] && !CheckCross(cur, x) && PathBegin(cur) <= x.begin
    ensures PathEnd(cur) <= x.begin
  {
  }

  /** Each closed crossing path ends by the begin of the next one. */
  lemma {:induction false} GroupsChain(xs: seq<Lexeme>, cur: Path, acc: seq<Path>)
    requires Sorted(cur + xs) && Chain(acc)
    requires acc != [] ==> cur != [] && PathEnd(acc[|acc| - 1]) <= cur[0].begin
    ensures Sorted(cur)
    ensures Chain(Groups(xs, cur, acc))
    decreases |xs|
  {
    SortedSplit(cur, xs);
    if xs == [] {
      var r := acc + [cur];
      assert forall i :: 0 <= i < |acc| ==> r[i] == acc[i];
    } else {
      var x := xs[0];
      AddCrossStep(cur, xs);
      var (c2, ok) := AddCrossLexeme(cur, x);
      if ok {
        GroupsChain(xs[1..], c2, acc);
      } else {
        var acc2 := acc + [cur];
        NotCrossAfter(cur, x);
        assert forall i :: 0 <= i < |acc| ==> acc2[i] == acc[i];
        assert Chain(acc2);
        GroupsChain(xs[1..], [x], acc2);
      }
    }
  }

  /** The crossing paths of candidates are never empty unless there were no candidates. */
  lemma {:induction false} GroupsNonEmpty(xs: seq<Lexeme>, cur: Path, acc: seq<Path>)
    requires Sorted(cur)
    requires forall i :: 0 <= i < |acc| ==> acc[i] != []
    requires cur == [] ==> acc == []
    ensures cur != [] || xs != [] ==> forall i :: 0 <= i < |Groups(xs, cur, acc)| ==> Groups(xs, cur, acc)[i] != []
    decreases |xs|
  {
    if xs != [] {
      var (c2, ok) := AddCrossLexeme(cur, xs[0]);
      if ok {
        GroupsNonEmpty(xs[1..], c2, acc);
      } else {
        var acc2 := acc + [cur];
        assert forall i :: 0 <= i < |acc| ==> acc2[i] == acc[i];
        GroupsNonEmpty(xs[1..], [xs[0]], acc2);
      }
    } else if cur != [] {
      var r := acc + [cur];
      assert forall i :: 0 <= i < |acc| ==> r[i] == acc[i];
    }
  }

  /** What process records for one crossing path: itself when unambiguous or outside smart mode, else judge's choice. */
  function Emit(g: Path, useSmart: bool, less: PathLess): Path
    requires Positive(g)
  {
    if |g| == 1 || !useSmart then g else First(Options(g), less)
  }

  /** A crossing path as process builds it: sorted lexemes that fit the buffer. */
  predicate GroupOk(g: Path)
  {
    Sorted(g) && AllInBuffer(g) && Positive(g)
  }

  /** addLexemePath for each recorded path in turn. */
  function PutAll(m: map<int, Path>, gs: seq<Path>, useSmart: bool, less: PathLess): map<int, Path>
    requires forall i :: 0 <= i < |gs| ==> GroupOk(gs[i])
  {
    if gs == [] then m
    else
      assert GroupOk(gs[|gs| - 1]);
      var p := Emit(gs[|gs| - 1], useSmart, less);
      PutAll(m, gs[..|gs| - 1], useSmart, less)[PathBegin(p) := p]
  }

  /**
   * Each crossing path is a sorted run of the candidates, so what process
   * records fits the buffer.
   */
  lemma {:induction false} GroupsFromCandidates(xs: seq<Lexeme>, cur: Path, acc: seq<Path>)
    requires Sorted(cur + xs) && AllInBuffer(cur + xs)
    requires forall i :: 0 <= i < |acc| ==> GroupOk(acc[i])
    ensures Sorted(cur)
    ensures forall i :: 0 <= i < |Groups(xs, cur, acc)| ==> GroupOk(Groups(xs, cur, acc)[i])
    decreases |xs|
  {
    SortedSplit(cur, xs);
    InBufferSplit(cur, xs);
    if xs == [] {
      var r := acc + [cur];
      assert forall i :: 0 <= i < |r| ==> r[i] == cur || r[i] == acc[i];
    } else {
      var x := xs[0];
      AddCrossStep(cur, xs);
      var (c2, ok) := AddCrossLexeme(cur, x);
      if ok {
        GroupsFromCandidates(xs[1..], c2, acc);
      } else {
        var acc2 := acc + [cur];
        assert forall i :: 0 <= i < |acc2| ==> acc2[i] == cur || acc2[i] == acc[i];
        GroupsFromCandidates(xs[1..], [x], acc2);
      }
    }
  }

  /** Both parts of candidates inside the buffer are inside it. */
  lemma InBufferSplit(a: seq<Lexeme>, b: seq<Lexeme>)
    requires AllInBuffer(a + b)
    ensures AllInBuffer(a) && AllInBuffer(b) && Positive(a)
  {
    assert forall k :: 0 <= k < |a| ==> a[k] == (a + b)[k];
    assert forall k :: 0 <= k < |b| ==> b[k] == (a + b)[|a| + k];
  }

  /** The crossing paths process cuts a pass's candidates into. */
  function CrossPaths(xs: seq<Lexeme>): (r: seq<Path>)
    requires Sorted(xs) && AllInBuffer(xs)
    ensures forall i :: 0 <= i < |r| ==> GroupOk(r[i])
  {
    assert [] + xs == xs;
    GroupsFromCandidates(xs, [], []);
    Groups(xs, [], [])
  }

  /** Each recorded path is a sorted path of its crossing path's lexemes, stored under its begin. */
  lemma EmitFromGroup(g: Path, useSmart: bool, less: PathLess)
    requires Sorted(g) && Positive(g) && StrictOrder(less)
    ensures Sorted(Emit(g, useSmart, less))
    ensures From(Emit(g, useSmart, less), g)
    ensures g != [] ==> Emit(g, useSmart, less) != []
  {
    if !(|g| == 1 || !useSmart) {
      JudgeMeaning(g, less);
      DisjointSorted(First(Options(g), less));
    }
  }

  /** The path recorded for a crossing path lies within the crossing path's span. */
  lemma EmitWithin(g: Path, useSmart: bool, less: PathLess)
    requires GroupOk(g) && g != [] && StrictOrder(less)
    ensures PathBegin(g) < PathEnd(g)
    ensures var p := Emit(g, useSmart, less);
      && p != [] && PathBegin(g) <= PathBegin(p) && PathBegin(p) < PathEnd(g)
      && forall i :: 0 <= i < |p| ==> End(p[i]) <= PathEnd(g)
  {
    EmitFromGroup(g, useSmart, less);
    var p := Emit(g, useSmart, less);
    forall i | 0 <= i < |p| ensures g[0].begin <= p[i].begin && End(p[i]) <= PathEnd(g) && 1 <= p[i].length {
      assert p[i] in p;
      var k :| 0 <= k < |g| && g[k] == p[i];
      assert k == 0 || Before(g[0], g[k]);
    }
  }

  /** Every key of the map, and every end of its lexemes, is at most b. */
  predicate Below(m: map<int, Path>, b: int)
  {
    && (forall k :: k in m ==> k < b)
    && (forall k, i :: k in m && 0 <= i < |m[k]| ==> End(m[k][i]) <= b)
  }

  /** Recording chained crossing paths into an empty map gives separated paths. */
  lemma {:induction false} PutAllSeparated(gs: seq<Path>, useSmart: bool, less: PathLess)
    requires StrictOrder(less) && Chain(gs)
    requires forall i :: 0 <= i < |gs| ==> GroupOk(gs[i]) && gs[i] != []
    ensures Separated(PutAll(map[], gs, useSmart, less))
    ensures gs != [] ==> Below(PutAll(map[], gs, useSmart, less), PathEnd(gs[|gs| - 1]))
    decreases |gs|
  {
    if gs != [] {
      var init := gs[..|gs| - 1];
      var g := gs[|gs| - 1];
      assert forall i :: 0 <= i < |init| ==> init[i] == gs[i];
      PutAllSeparated(init, useSmart, less);
      var m := PutAll(map[], init, useSmart, less);
      EmitWithin(g, useSmart, less);
      var p := Emit(g, useSmart, less);
      var kp := PathBegin(p);
      if init != [] {
        assert PathEnd(init[|init| - 1]) <= PathBegin(g);
        assert Below(m, PathBegin(g));
      } else {
        assert m == map[];
      }
      var n := m[kp := p];
      assert n == PutAll(map[], gs, useSmart, less);
      forall k1, k2, i | k1 in n && k2 in n && 0 <= k1 < k2 && 0 <= i < |n[k1]|
        ensures End(n[k1][i]) <= k2
      {
        if k1 != kp && k2 == kp {
          assert End(m[k1][i]) <= PathBegin(g);
        } else if k1 != kp {
          assert k1 in m && k2 in m;
        }
      }
    }
  }

  /** An empty crossing path records the empty path. */
  lemma EmitEmpty(useSmart: bool, less: PathLess)
    requires StrictOrder(less)
    ensures Emit([], useSmart, less) == []
  {
    EmitFromGroup([], useSmart, less);
  }

  /** With no candidates, process records only the empty path, under key -1. */
  lemma EmptyRecordsNothing(xs: seq<Lexeme>, useSmart: bool, less: PathLess)
    requires xs == [] && StrictOrder(less)
    ensures Separated(PutAll(map[], CrossPaths(xs), useSmart, less))
  {
    EmitEmpty(useSmart, less);
    var gs: seq<Path> := [[]];
    assert CrossPaths(xs) == gs;
    assert gs[..0] == [];
    assert PutAll(map[], gs, useSmart, less) == map[-1 := []];
  }

  /** The crossing paths of nonempty candidates are chained and nonempty. */
  lemma CandidatesSeparate(xs: seq<Lexeme>, useSmart: bool, less: PathLess)
    requires Sorted(xs) && AllInBuffer(xs) && StrictOrder(less) && xs != []
    ensures Separated(PutAll(map[], CrossPaths(xs), useSmart, less))
  {
    assert [] + xs == xs;
    GroupsChain(xs, [], []);
    GroupsNonEmpty(xs, [], []);
    PutAllSeparated(CrossPaths(xs), useSmart, less);
  }

  /**
   * process, from an empty path map, records paths that do not reach each
   * other's start: every lexeme of a path ends by the begin of every later path.
   */
  lemma ProcessSeparates(xs: seq<Lexeme>, useSmart: bool, less: PathLess)
    requires Sorted(xs) && AllInBuffer(xs) && StrictOrder(less)
    ensures Separated(PutAll(map[], CrossPaths(xs), useSmart, less))
  {
    if xs == [] {
      EmptyRecordsNothing(xs, useSmart, less);
    } else {
      CandidatesSeparate(xs, useSmart, less);
    }
  }

  /** Every lexeme of every path in the map is one of pool's. */
  predicate Recorded(m: map<int, Path>, pool: seq<Lexeme>)
  {
    forall k, i :: k in m && 0 <= i < |m[k]| ==> m[k][i] in pool
  }

  /** What is recorded from crossing paths is made of their lexemes. */
  lemma {:induction false} PutAllFrom(gs: seq<Path>, useSmart: bool, less: PathLess)
    requires StrictOrder(less) && forall i :: 0 <= i < |gs| ==> GroupOk(gs[i])
    ensures Recorded(PutAll(map[], gs, useSmart, less), Flatten(gs))
    decreases |gs|
  {
    if gs != [] {
      var init := gs[..|gs| - 1];
      var g := gs[|gs| - 1];
      assert forall i :: 0 <= i < |init| ==> init[i] == gs[i];
      PutAllFrom(init, useSmart, less);
      EmitFromGroup(g, useSmart, less);
      var m := PutAll(map[], init, useSmart, less);
      var p := Emit(g, useSmart, less);
      assert Flatten(gs) == Flatten(init) + g;
      var n := m[PathBegin(p) := p];
      assert n == PutAll(map[], gs, useSmart, less);
      forall k, i | k in n && 0 <= i < |n[k]|
        ensures n[k][i] in Flatten(gs)
      {
        if k == PathBegin(p) {
          assert p[i] in p;
        } else {
          assert m[k][i] in Flatten(init);
        }
      }
    }
  }

  /** process records only the candidates it drained. */
  lemma RecordedFromCandidates(xs: seq<Lexeme>, useSmart: bool, less: PathLess)
    requires Sorted(xs) && AllInBuffer(xs) && StrictOrder(less)
    ensures Recorded(PutAll(map[], CrossPaths(xs), useSmart, less), xs)
  {
    assert [] + xs == xs;
    GroupsFlatten(xs, [], []);
    assert Flatten([]) == [];
    PutAllFrom(CrossPaths(xs), useSmart, less);
  }

  /** Lexemes that fit the buffer have positive length. */
  lemma InBufferPositive(p: Path)
    requires AllInBuffer(p)
    ensures Positive(p)
  {
  }

  /**
   * The step process repeats for each closed crossing path: the path itself
   * when it holds one lexeme or outside smart mode, else judge's choice, is
   * recorded in the context.
   */
  method RecordCrossPath(context: AnalyzeContext, crossPath: Path, useSmart: bool, less: PathLess)
    requires context.Valid() && GroupOk(crossPath) && StrictOrder(less)
    modifies context
    ensures context.Valid()
    ensures var p := Emit(crossPath, useSmart, less); context.pathMap == old(context.pathMap)[PathBegin(p) := p]
    ensures context.segmentBuff == old(context.segmentBuff) && context.charTypes == old(context.charTypes)
    ensures context.buffOffset == old(context.buffOffset) && context.cursor == old(context.cursor)
    ensures context.available == old(context.available) && context.buffLocker == old(context.buffLocker)
    ensures context.orgLexemes == old(context.orgLexemes) && context.results == old(context.results)
  {
    var p: Path;
    if |crossPath| == 1 || !useSmart {
      p := crossPath;
    } else {
      p := Judge(crossPath, less);
    }
    EmitFromGroup(crossPath, useSmart, less);
    forall i | 0 <= i < |p| ensures InBuffer(p[i], BuffSize) {
      assert p[i] in p;
      var k :| 0 <= k < |crossPath| && crossPath[k] == p[i];
    }
    context.AddLexemePath(Some(p));
  }

  /**
   * The state of process's loop: the current crossing path followed by the
   * candidates still to drain is one sorted run inside the buffer, the paths
   * closed so far are well formed, and finishing the run gives all paths.
   */
  ghost predicate Draining(cur: Path, rest: seq<Lexeme>, acc: seq<Path>, all: seq<Path>)
  {
    && Sorted(cur + rest) && AllInBuffer(cur + rest) && Sorted(cur)
    && (forall i :: 0 <= i < |acc| ==> GroupOk(acc[i]))
    && Groups(rest, cur, acc) == all
  }

  /** One candidate's step in process: the run it extends, or the crossing path it closes. */
  lemma CrossStep(cur: Path, x: Lexeme, more: seq<Lexeme>, acc: seq<Path>, all: seq<Path>)
    requires Draining(cur, [x] + more, acc, all)
    ensures AddCrossLexeme(cur, x).1 ==> Draining(AddCrossLexeme(cur, x).0, more, acc, all)
    ensures !AddCrossLexeme(cur, x).1 ==> GroupOk(cur) && Draining([x], more, acc + [cur], all)
  {
    var rest := [x] + more;
    assert rest[0] == x && rest[1..] == more;
    AddCrossStep(cur, rest);
    InBufferSplit(cur, rest);
    var (c2, ok) := AddCrossLexeme(cur, x);
    if !ok {
      var acc2 := acc + [cur];
      assert forall i :: 0 <= i < |acc2| ==> acc2[i] == cur || acc2[i] == acc[i];
    }
  }

  /**
   * process: the candidates are drained into crossing paths and each closed
   * path is recorded in the context. removeAllCoverTerms is accepted and
   * unused.
   */
  method Process(context: AnalyzeContext, useSmart: bool, removeAllCoverTerms: bool, less: PathLess)
    requires context.Valid() && StrictOrder(less)
    modifies context
    ensures context.Valid()
    ensures context.orgLexemes == []
    ensures context.pathMap == PutAll(old(context.pathMap), CrossPaths(old(context.orgLexemes)), useSmart, less)
    ensures context.segmentBuff == old(context.segmentBuff) && context.charTypes == old(context.charTypes)
    ensures context.buffOffset == old(context.buffOffset) && context.cursor == old(context.cursor)
    ensures context.available == old(context.available) && context.buffLocker == old(context.buffLocker)
    ensures context.results == old(context.results)
  {
    ghost var m0 := context.pathMap;
    // The candidate set is the context's own object, drained here.
    var orgLexemes := context.orgLexemes;
    context.orgLexemes := [];
    ghost var all := CrossPaths(orgLexemes);
    var orgLexeme := PollFirst(orgLexemes).0;
    orgLexemes := PollFirst(orgLexemes).1;
    var crossPath: Path := [];
    ghost var acc: seq<Path> := [];
    ghost var rest := if orgLexeme.Some? then [orgLexeme.value] + orgLexemes else [];
    assert [] + rest == rest;
    while orgLexeme.Some?
      invariant context.Valid() && context.orgLexemes == []
      invariant rest == if orgLexeme.Some? then [orgLexeme.value] + orgLexemes else []
      invariant Draining(crossPath, rest, acc, all)
      invariant context.pathMap == PutAll(m0, acc, useSmart, less)
      invariant context.segmentBuff == old(context.segmentBuff) && context.charTypes == old(context.charTypes)
      invariant context.buffOffset == old(context.buffOffset) && context.cursor == old(context.cursor)
      invariant context.available == old(context.available) && context.buffLocker == old(context.buffLocker)
      invariant context.results == old(context.results)
      decreases |orgLexemes|, orgLexeme.Some?
    {
      var x := orgLexeme.value;
      CrossStep(crossPath, x, orgLexemes, acc, all);
      var (c2, ok) := AddCrossLexeme(crossPath, x);
      if !ok {
        RecordCrossPath(context, crossPath, useSmart, less);
        assert (acc + [crossPath])[..|acc|] == acc;
        acc := acc + [crossPath];
        crossPath := AddCrossLexeme([], x).0;
      } else {
        crossPath := c2;
      }
      orgLexeme := PollFirst(orgLexemes).0;
      orgLexemes := PollFirst(orgLexemes).1;
      rest := if orgLexeme.Some? then [orgLexeme.value] + orgLexemes else [];
    }
    assert crossPath + [] == crossPath;
    RecordCrossPath(context, crossPath, useSmart, less);
    assert (acc + [crossPath])[..|acc|] == acc;
  }
}
