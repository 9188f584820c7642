/**
 * KeywordSegmenter: the driver of the IK segmenter. Each call of next()
 * drains the output queue; when it is empty the driver refills the buffer and
 * makes one pass over it: runs of letters and digits become one TYPE_LETTER
 * lexeme each, every other position is offered to the three sub-segmenters,
 * and the pass stops early when the buffer is nearly consumed. The candidates
 * are then arbitrated, the chosen paths output, and the stream offset
 * advanced.
 *
 * The sub-segmenters (LetterSegmenter, CN_QuantifierSegmenter, CJKSegmenter)
 * are not part of this model's sources: each is given by an abstract analyzer
 * that, from its own state, the buffer, the char classes, the cursor, the
 * count of chars available, and the dictionary's main and quantifier tries,
 * decides the lexemes it finds and whether it still holds the buffer. So a
 * change to the dictionary (addWords, disableWords, a rebuilt main trie)
 * reaches the segmentation only through these analyses.
 */
module IkSegmenter {
  import opened JavaLang
  import opened IkLexeme
  import opened IkDictionary
  import opened IkContext
  import opened IkArbitrator

  // ---------------------------------------------------------------------------
  // The sub-segmenters
  // ---------------------------------------------------------------------------

  datatype SegmenterKind = LetterSegmenter | QuantifierSegmenter | CjkSegmenter

  /** loadSegmenters' order. */
  const Order: seq<SegmenterKind> := [LetterSegmenter, QuantifierSegmenter, CjkSegmenter]

  /** The name a sub-segmenter holds the buffer under; the three are distinct. */
  function Name(k: SegmenterKind): string
  {
    match k
    case LetterSegmenter => "LETTER_SEGMENTER"
    case QuantifierSegmenter => "QUAN_SEGMENTER"
    case CjkSegmenter => "CJK_SEGMENTER"
  }

  /** The names of all three. */
  const Names: set<string> := {Name(LetterSegmenter), Name(QuantifierSegmenter), Name(CjkSegmenter)}

  /** A sub-segmenter: its kind and its private scan state, empty after reset. */
  datatype SubSegmenter = SubSegmenter(kind: SegmenterKind, memory: seq<int>)

  /** A lexeme a sub-segmenter reports: a span of the buffer and a type. */
  datatype Found = Found(begin: int, length: int, lexemeType: LexemeType)
  type Span = f: Found | 0 <= f.begin && 1 <= f.length && f.begin + f.length <= BuffSize
    witness Found(0, 1, TypeUnknown)

  /** One analyze call: the segmenter's new state, what it found, and whether it still holds the buffer. */
  datatype Analysis = Analysis(memory: seq<int>, found: seq<Span>, holdsBuffer: bool)

  /**
   * ISegmenter.analyze(context), as a function of the segmenter, the buffer,
   * the char classes, the cursor, the count of chars available (which
   * isBufferConsumed compares the cursor with), and the main and quantifier
   * tries of the dictionary singleton that the sub-segmenters match in.
   */
  type Analyzer = (SubSegmenter, seq<char>, seq<CharType>, int, int, Trie, Trie) -> Analysis

  /** loadSegmenters: Letter, then CN_Quantifier, then CJK, each with a fresh state. */
  function LoadSegmenters(): (r: seq<SubSegmenter>)
    ensures Loaded(r) && forall i :: 0 <= i < |r| ==> r[i].memory == []
  {
    [SubSegmenter(LetterSegmenter, []), SubSegmenter(QuantifierSegmenter, []), SubSegmenter(CjkSegmenter, [])]
  }

  /** The sub-segmenters are the three kinds, in loadSegmenters' order. */
  predicate Loaded(subs: seq<SubSegmenter>)
  {
    |subs| == |Order| && forall i :: 0 <= i < |subs| ==> subs[i].kind == Order[i]
  }

  /** The lexeme a sub-segmenter adds for what it found at the given stream offset. */
  function FoundLexeme(offset: int, f: Span): (l: Lexeme)
    ensures InBuffer(l, BuffSize)
  {
    Lexeme(offset, f.begin, f.length, f.lexemeType, None)
  }

  /** The candidate set after adding each found lexeme in turn. */
  function InsertFound(s: seq<Lexeme>, offset: int, found: seq<Span>): (r: seq<Lexeme>)
    requires Sorted(s)
    ensures Sorted(r)
    decreases |found|
  {
    if found == [] then s
    else Insert(InsertFound(s, offset, found[..|found| - 1]), FoundLexeme(offset, found[|found| - 1]))
  }

  /** The TYPE_LETTER lexeme the driver adds for a run. */
  function LetterLexeme(offset: int, begin: int, length: int): Lexeme
  {
    Lexeme(offset, begin, length, TypeLetter, None)
  }

  /** Every run lexeme the events added has its span among the candidates. */
  ghost predicate RunsKept(org: seq<Lexeme>, offset: int, events: seq<Event>)
  {
    forall b, n :: LetterRun(b, n) in events ==> HasSpan(org, LetterLexeme(offset, b, n))
  }

  /** Spans stay among candidates that keep every entry. */
  lemma RunsKeptFrom(org: seq<Lexeme>, org2: seq<Lexeme>, offset: int, events: seq<Event>)
    requires From(org, org2) && RunsKept(org, offset, events)
    ensures RunsKept(org2, offset, events)
  {
    forall b, n | LetterRun(b, n) in events
      ensures HasSpan(org2, LetterLexeme(offset, b, n))
    {
      FromHasSpan(org, org2, LetterLexeme(offset, b, n));
    }
  }

  /** Every lexeme is of the pass at the given stream offset. */
  predicate AtOffset(s: seq<Lexeme>, offset: int)
  {
    forall x :: x in s ==> x.offset == offset
  }

  // ---------------------------------------------------------------------------
  // One pass over the buffer, as a sequence of events
  // ---------------------------------------------------------------------------

  /** What the do-while loop of next() does, in order. */
  datatype Event =
    | ResetAt(pos: int)                      // the sub-segmenters reset at a letter or digit
    | LetterRun(begin: int, length: int)     // a TYPE_LETTER lexeme added for a run
    | Analyzed(kind: SegmenterKind, pos: int) // a sub-segmenter analyzed a position
    | PassReset                              // the sub-segmenters reset after the pass

  /** A maximal run of letters and digits in the visited char classes. */
  predicate IsRun(t: seq<CharType>, begin: int, length: int)
  {
    && 0 <= begin && 1 <= length && begin + length <= |t|
    && (forall p :: begin <= p < begin + length ==> IsLetter(t[p]))
    && (begin == 0 || !IsLetter(t[begin - 1]))
    && (begin + length == |t| || !IsLetter(t[begin + length]))
  }

  /** The start of the run of letters and digits the classes end with, -1 when they end otherwise. */
  function Pending(t: seq<CharType>): (r: int)
    ensures -1 <= r < |t|
    ensures r == -1 <==> t == [] || !IsLetter(t[|t| - 1])
    ensures r >= 0 ==> (r == 0 || !IsLetter(t[r - 1])) && forall p :: r <= p < |t| ==> IsLetter(t[p])
  {
    if t == [] || !IsLetter(t[|t| - 1]) then -1
    else
      var s := Pending(t[..|t| - 1]);
      if s == -1 then |t| - 1 else s
  }

  /** The letter lexeme for the run still open at the end of the classes, if any. */
  function Close(t: seq<CharType>): seq<Event>
  {
    if Pending(t) == -1 then [] else [LetterRun(Pending(t), |t| - Pending(t))]
  }

  /** The three sub-segmenters analyze the position, in order. */
  function Analyses(p: int): seq<Event>
  {
    [Analyzed(Order[0], p), Analyzed(Order[1], p), Analyzed(Order[2], p)]
  }

  /** The loop's events over the visited classes, a run still open at the end. */
  function Visit(t: seq<CharType>): seq<Event>
  {
    if t == [] then []
    else
      var init := t[..|t| - 1];
      var p := |t| - 1;
      if IsLetter(t[p]) then Visit(init) + [ResetAt(p)]
      else Visit(init) + Close(init) + Analyses(p)
  }

  /** A whole pass: the loop, the last run flushed, and the sub-segmenters reset. */
  function PassEvents(t: seq<CharType>): seq<Event>
  {
    Visit(t) + Close(t) + [PassReset]
  }

  /** The open run found at the end is the maximal run that ends there. */
  lemma CloseRun(t: seq<CharType>, b: int, n: int)
    ensures LetterRun(b, n) in Close(t) <==> IsRun(t, b, n) && b + n == |t|
  {
    if IsRun(t, b, n) && b + n == |t| {
      assert IsLetter(t[|t| - 1]);
    }
  }

  /** The loop adds a lexeme exactly for each maximal run closed by a later position. */
  lemma {:induction false} VisitRuns(t: seq<CharType>, b: int, n: int)
    ensures LetterRun(b, n) in Visit(t) <==> IsRun(t, b, n) && b + n < |t|
  {
    if t != [] {
      var init := t[..|t| - 1];
      var p := |t| - 1;
      VisitRuns(init, b, n);
      assert forall q :: 0 <= q < |init| ==> init[q] == t[q];
      if !IsLetter(t[p]) {
        CloseRun(init, b, n);
      }
    }
  }

  /** Sub-segmenters analyze exactly the visited positions that are not letters or digits. */
  lemma {:induction false} VisitAnalyzes(t: seq<CharType>, k: SegmenterKind, p: int)
    ensures Analyzed(k, p) in Visit(t) <==> 0 <= p < |t| && !IsLetter(t[p])
  {
    if t != [] {
      var init := t[..|t| - 1];
      VisitAnalyzes(init, k, p);
      assert forall q :: 0 <= q < |init| ==> init[q] == t[q];
      assert k == Order[0] || k == Order[1] || k == Order[2];
    }
  }

  /** The sub-segmenters are reset exactly at the visited letters and digits. */
  lemma {:induction false} VisitResets(t: seq<CharType>, p: int)
    ensures ResetAt(p) in Visit(t) <==> 0 <= p < |t| && IsLetter(t[p])
  {
    if t != [] {
      var init := t[..|t| - 1];
      VisitResets(init, p);
      assert forall q :: 0 <= q < |init| ==> init[q] == t[q];
    }
  }

  /**
   * One pass, as a whole: one TYPE_LETTER lexeme for each maximal run of
   * letters and digits, the sub-segmenters asked about every other position
   * and reset at every letter or digit instead, and reset once more at the end.
   */
  lemma PassMeaning(t: seq<CharType>)
    ensures forall b, n :: LetterRun(b, n) in PassEvents(t) <==> IsRun(t, b, n)
    ensures forall k, p :: Analyzed(k, p) in PassEvents(t) <==> 0 <= p < |t| && !IsLetter(t[p])
    ensures forall p :: ResetAt(p) in PassEvents(t) <==> 0 <= p < |t| && IsLetter(t[p])
    ensures PassEvents(t)[|PassEvents(t)| - 1] == PassReset
  {
    forall b, n ensures LetterRun(b, n) in PassEvents(t) <==> IsRun(t, b, n) {
      VisitRuns(t, b, n);
      CloseRun(t, b, n);
    }
    forall k, p ensures Analyzed(k, p) in PassEvents(t) <==> 0 <= p < |t| && !IsLetter(t[p]) {
      VisitAnalyzes(t, k, p);
    }
    forall p ensures ResetAt(p) in PassEvents(t) <==> 0 <= p < |t| && IsLetter(t[p]) {
      VisitResets(t, p);
    }
  }

  // ---------------------------------------------------------------------------
  // The rounds of next()
  // ---------------------------------------------------------------------------

  /** What next() does to the context, in order. */
  datatype Step =
    | Filled(count: int)
    | Scanned(types: seq<CharType>, events: seq<Event>)
    | Arbitrated
    | Output
    | Marked
    | ContextReset

  /**
   * A full round: a fill that read something, one pass over the classes of
   * the positions it visited, then process, outputToResult and markBufferOffset.
   */
  predicate FullRound(s: seq<Step>)
  {
    && |s| == 5 && s[0].Filled? && s[0].count > 0
    && s[1].Scanned? && 1 <= |s[1].types| <= s[0].count && s[1].events == PassEvents(s[1].types)
    && s[2] == Arbitrated && s[3] == Output && s[4] == Marked
  }

  /** Full rounds, then, when the call returns null, a fill that read nothing and a context reset. */
  predicate NextLog(s: seq<Step>, ended: bool)
    decreases |s|
  {
    if s == [] then !ended
    else if |s| == 2 && s[0].Filled? && s[0].count <= 0 then s[1] == ContextReset && ended
    else |s| >= 5 && FullRound(s[..5]) && NextLog(s[5..], ended)
  }

  /** A log of rounds followed by another log is one log. */
  lemma {:induction false} NextLogAppend(a: seq<Step>, b: seq<Step>, ended: bool)
    requires NextLog(a, false) && NextLog(b, ended)
    ensures NextLog(a + b, ended)
    decreases |a|
  {
    if a != [] {
      assert |a| >= 5 && FullRound(a[..5]) && NextLog(a[5..], false);
      assert (a + b)[..5] == a[..5];
      assert (a + b)[5..] == a[5..] + b;
      NextLogAppend(a[5..], b, ended);
      assert NextLog((a + b)[5..], ended);
      assert !(|a + b| == 2);
    } else {
      assert a + b == b;
    }
  }

  /** A log kept from s0 up to a fill that read something, followed by the rest of that round, is one log from s0. */
  lemma RoundExtend(before: seq<Step>, s0: seq<Step>, count: int, added: seq<Step>)
    requires |s0| + 1 <= |before| && before[..|s0|] == s0 && before[|before| - 1] == Filled(count)
    requires NextLog(before[|s0|..|before| - 1], false) && FullRound([Filled(count)] + added)
    ensures |s0| <= |before + added| && (before + added)[..|s0|] == s0
    ensures NextLog((before + added)[|s0|..], false)
  {
    var prior := before[..|before| - 1];
    var round := [Filled(count)] + added;
    assert before == prior + [Filled(count)];
    assert before + added == prior + round;
    assert prior[..|s0|] == s0 && prior[|s0|..] == before[|s0|..|before| - 1];
    assert round[..5] == round && round[5..] == [];
    LogExtend(prior, s0, round, false);
  }

  /**
   * A fill that read something leaves less to segment: the unread input plus
   * all but one of the available chars (all of them when only one is) is
   * less than the unread input and the kept tail before.
   */
  lemma FillShrinks(rest: seq<char>, rest': seq<char>, offset: int, available: int, cursor: int, count: int)
    requires 0 < count
    requires offset == 0 ==> count == ReadCount(rest, BuffSize) && rest' == rest[Consumed(count)..]
    requires offset != 0 ==>
      && 1 <= available - cursor < BuffExhaustCritical
      && count == available - cursor + ReadCount(rest, BuffSize - (available - cursor))
      && rest' == rest[Consumed(count - (available - cursor))..]
    ensures offset == 0 ==> |rest'| + count - 1 < |rest|
    ensures offset != 0 ==> |rest'| + count - (if count >= 2 then 1 else 0) < |rest| + available - cursor
  {
  }

  /** A log kept from a starting point s0, extended by the log of further rounds, is one log from s0. */
  lemma LogExtend(steps: seq<Step>, s0: seq<Step>, added: seq<Step>, ended: bool)
    requires |s0| <= |steps| && steps[..|s0|] == s0 && NextLog(steps[|s0|..], false)
    requires NextLog(added, ended)
    ensures |s0| <= |steps + added| && (steps + added)[..|s0|] == s0
    ensures NextLog((steps + added)[|s0|..], ended)
  {
    assert (steps + added)[|s0|..] == steps[|s0|..] + added;
    NextLogAppend(steps[|s0|..], added, ended);
  }

  /**
   * The queue a round leaves: the paths that arbitration chooses among the
   * pass's candidates, output from position 0 to the cursor.
   */
  ghost predicate RoundQueue(types: seq<CharType>, cursor: int, cands: seq<Lexeme>, useSmart: bool, less: PathLess,
                             queue: seq<Lexeme>)
  {
    && Sorted(cands) && AllInBuffer(cands) && 0 <= cursor < |types|
    && PathsOk(PutAll(map[], CrossPaths(cands), useSmart, less))
    && queue == IkContext.Output(types, PutAll(map[], CrossPaths(cands), useSmart, less), 0, cursor)
    && AllInBuffer(queue) && SameOffset(queue)
  }

  /** Every maximal run of letters and digits up to the cursor is a candidate, as a TYPE_LETTER lexeme at the given offset. */
  ghost predicate RunsAmong(types: seq<CharType>, cursor: int, cands: seq<Lexeme>, offset: int)
    requires 0 <= cursor < |types|
  {
    forall b, n :: IsRun(types[..cursor + 1], b, n) ==> HasSpan(cands, LetterLexeme(offset, b, n))
  }

  /**
   * What one round leaves: the classes of the buffer, the cursor and the
   * stream offset of its pass, the pass's candidates and the queue output.
   */
  datatype RoundTrace = RoundTrace(types: seq<CharType>, cursor: int, offset: int, cands: seq<Lexeme>, queue: seq<Lexeme>)

  /** The round's queue is what arbitration makes of its candidates, and every run of letters is among them. */
  ghost predicate RoundOk(rt: RoundTrace, useSmart: bool, less: PathLess)
  {
    && RoundQueue(rt.types, rt.cursor, rt.cands, useSmart, less, rt.queue)
    && RunsAmong(rt.types, rt.cursor, rt.cands, rt.offset)
  }

  // ---------------------------------------------------------------------------
  // The segmenter
  // ---------------------------------------------------------------------------

  class KeywordSegmenter {
    /** The reader being segmented. */
    var input: Reader
    const cfg: Configuration
    const context: AnalyzeContext
    var segmenters: seq<SubSegmenter>
    const removeAllCoverTerms: bool
    /** Dictionary.getSingleton(): where getNextLexeme looks up stop words. */
    const dict: Dictionary
    /** The sub-segmenters' analyze. */
    const analyze: Analyzer
    /** LexemePath's ordering, which judge's TreeSet keeps. */
    const less: PathLess
    /** What next() has done so far. */
    ghost var steps: seq<Step>

    /**
     * Between calls: the context shares the configuration, the candidates and
     * paths are drained, once past the first buffer at most a short tail is
     * left unconsumed, and the three sub-segmenters are in their order.
     */
    ghost predicate Valid()
      reads this, context
    {
      && context.Valid() && context.cfg == cfg
      && context.orgLexemes == [] && context.pathMap == map[]
      && (context.buffOffset != 0 ==> 1 <= context.available - context.cursor < BuffExhaustCritical)
      && Loaded(segmenters) && StrictOrder(less)
    }

    /**
     * KeywordSegmenter(input, useSmart, removeAllCoverTerms): the default
     * configuration set to the mode, then init: the dictionary singleton,
     * a new context and the sub-segmenters.
     */
    constructor (input: Reader, useSmart: bool, removeAllCoverTerms: bool, defaultConfig: Configuration,
                 holder: DictionaryHolder, res: Resources, regularize: char -> char,
                 identifyCharType: char -> CharType, analyze: Analyzer, less: PathLess)
      requires StrictOrder(less)
      modifies defaultConfig, holder
      ensures Valid() && fresh(context) && steps == []
      ensures this.input == input && this.removeAllCoverTerms == removeAllCoverTerms
      ensures cfg == defaultConfig && cfg.useSmart == useSmart
      ensures segmenters == LoadSegmenters() && dict == holder.singleton
      ensures context.buffOffset == 0 && context.available == 0 && context.results == []
    {
      this.input := input;
      this.removeAllCoverTerms := removeAllCoverTerms;
      defaultConfig.SetUseSmart(useSmart);
      this.cfg := defaultConfig;
      var d := holder.Initial(defaultConfig, res);
      this.dict := d;
      this.context := new AnalyzeContext(defaultConfig, regularize, identifyCharType);
      this.segmenters := LoadSegmenters();
      this.analyze := analyze;
      this.less := less;
      this.steps := [];
    }

    /** KeywordSegmenter(input, cfg): the given configuration, and removeAllCoverTerms forced on. */
    constructor WithConfig(input: Reader, cfg: Configuration, holder: DictionaryHolder, res: Resources,
                           regularize: char -> char, identifyCharType: char -> CharType,
                           analyze: Analyzer, less: PathLess)
      requires StrictOrder(less)
      modifies holder
      ensures Valid() && fresh(context) && steps == []
      ensures this.input == input && this.cfg == cfg && removeAllCoverTerms
      ensures segmenters == LoadSegmenters() && dict == holder.singleton
      ensures context.buffOffset == 0 && context.available == 0 && context.results == []
    {
      this.input := input;
      this.cfg := cfg;
      this.removeAllCoverTerms := true;
      var d := holder.Initial(cfg, res);
      this.dict := d;
      this.context := new AnalyzeContext(cfg, regularize, identifyCharType);
      this.segmenters := LoadSegmenters();
      this.analyze := analyze;
      this.less := less;
      this.steps := [];
    }

    /** The loop calling reset() on every sub-segmenter: each state cleared, kinds and order kept. */
    method ResetSegmenters()
      modifies this
      ensures |segmenters| == |old(segmenters)|
      ensures forall j :: 0 <= j < |segmenters| ==> segmenters[j] == SubSegmenter(old(segmenters)[j].kind, [])
      ensures input == old(input) && steps == old(steps)
    {
      var i := 0;
      while i < |segmenters|
        invariant 0 <= i <= |segmenters| == |old(segmenters)|
        invariant forall j :: 0 <= j < i ==> segmenters[j] == SubSegmenter(old(segmenters)[j].kind, [])
        invariant forall j :: i <= j < |segmenters| ==> segmenters[j] == old(segmenters)[j]
        invariant input == old(input) && steps == old(steps)
      {
        segmenters := segmenters[i := SubSegmenter(segmenters[i].kind, [])];
        i := i + 1;
      }
    }

    /** reset(input): the new reader, the context reset and every sub-segmenter reset. */
    method Reset(input: Reader)
      requires Valid()
      modifies this, context
      ensures Valid() && this.input == input && steps == old(steps)
      ensures fresh(context.segmentBuff) && fresh(context.charTypes)
      ensures context.buffOffset == 0 && context.cursor == 0 && context.available == 0
      ensures context.buffLocker == {} && context.results == []
      ensures segmenters == LoadSegmenters()
    {
      this.input := input;
      context.Reset();
      ResetSegmenters();
      assert segmenters == LoadSegmenters();
    }

    /** A sub-segmenter's addLexeme calls: each found lexeme, at the pass's offset, into the candidates. */
    static method AddFound(context: AnalyzeContext, found: seq<Span>)
      requires context.Valid() && AtOffset(context.orgLexemes, context.buffOffset)
      modifies context
      ensures context.Valid() && AtOffset(context.orgLexemes, context.buffOffset)
      ensures context.orgLexemes == InsertFound(old(context.orgLexemes), context.buffOffset, found)
      ensures From(old(context.orgLexemes), context.orgLexemes)
      ensures context.segmentBuff == old(context.segmentBuff) && context.charTypes == old(context.charTypes)
      ensures context.buffOffset == old(context.buffOffset) && context.cursor == old(context.cursor)
      ensures context.available == old(context.available) && context.buffLocker == old(context.buffLocker)
      ensures context.pathMap == old(context.pathMap) && context.results == old(context.results)
    {
      var j := 0;
      while j < |found|
        invariant 0 <= j <= |found|
        invariant context.Valid() && AtOffset(context.orgLexemes, context.buffOffset)
        invariant context.orgLexemes == InsertFound(old(context.orgLexemes), context.buffOffset, found[..j])
        invariant From(old(context.orgLexemes), context.orgLexemes)
        invariant context.segmentBuff == old(context.segmentBuff) && context.charTypes == old(context.charTypes)
        invariant context.buffOffset == old(context.buffOffset) && context.cursor == old(context.cursor)
        invariant context.available == old(context.available) && context.buffLocker == old(context.buffLocker)
        invariant context.pathMap == old(context.pathMap) && context.results == old(context.results)
      {
        assert found[..j + 1][..j] == found[..j];
        ghost var prev := context.orgLexemes;
        var l := FoundLexeme(context.buffOffset, found[j]);
        context.AddLexeme(l);
        InsertKeeps(prev, l);
        j := j + 1;
      }
      assert found[..j] == found;
    }

    /**
     * segmenter.analyze(context) for the i-th sub-segmenter: the lexemes it
     * finds join the candidates, it holds or frees the buffer under its name,
     * and its state moves on.
     */
    method AnalyzeOne(i: int)
      requires 0 <= i < |segmenters| && context.Valid() && AtOffset(context.orgLexemes, context.buffOffset)
      modifies this, context
      ensures
        var a := analyze(old(segmenters[i]), old(context.segmentBuff[..]), old(context.charTypes[..]), old(context.cursor),
                         old(context.available), old(dict.mainDict), old(dict.quantifierDict));
        var name := Name(old(segmenters[i]).kind);
        && context.orgLexemes == InsertFound(old(context.orgLexemes), context.buffOffset, a.found)
        && context.buffLocker == (if a.holdsBuffer then old(context.buffLocker) + {name} else old(context.buffLocker) - {name})
        && segmenters == old(segmenters)[i := SubSegmenter(old(segmenters[i]).kind, a.memory)]
      ensures context.Valid() && AtOffset(context.orgLexemes, context.buffOffset)
      ensures From(old(context.orgLexemes), context.orgLexemes)
      ensures context.segmentBuff == old(context.segmentBuff) && context.charTypes == old(context.charTypes)
      ensures context.buffOffset == old(context.buffOffset) && context.cursor == old(context.cursor)
      ensures context.available == old(context.available)
      ensures context.pathMap == old(context.pathMap) && context.results == old(context.results)
      ensures input == old(input) && steps == old(steps)
    {
      var sub := segmenters[i];
      var a := analyze(sub, context.segmentBuff[..], context.charTypes[..], context.cursor,
                       context.available, dict.mainDict, dict.quantifierDict);
      AddFound(context, a.found);
      if a.holdsBuffer {
        context.LockBuffer(Name(sub.kind));
      } else {
        context.UnlockBuffer(Name(sub.kind));
      }
      segmenters := segmenters[i := SubSegmenter(sub.kind, a.memory)];
    }

    /** The loop over the sub-segmenters, in their order, at a position that is not a letter or digit. */
    method AnalyzeAll() returns (ghost events: seq<Event>)
      requires context.Valid() && Loaded(segmenters) && AtOffset(context.orgLexemes, context.buffOffset)
      modifies this, context
      ensures events == Analyses(context.cursor)
      ensures context.Valid() && Loaded(segmenters) && AtOffset(context.orgLexemes, context.buffOffset)
      ensures From(old(context.orgLexemes), context.orgLexemes)
      ensures context.buffLocker - Names == old(context.buffLocker) - Names
      ensures context.segmentBuff == old(context.segmentBuff) && context.charTypes == old(context.charTypes)
      ensures context.buffOffset == old(context.buffOffset) && context.cursor == old(context.cursor)
      ensures context.available == old(context.available)
      ensures context.pathMap == old(context.pathMap) && context.results == old(context.results)
      ensures input == old(input) && steps == old(steps)
    {
      events := [];
      var i := 0;
      while i < |segmenters|
        invariant 0 <= i <= |segmenters| && Loaded(segmenters)
        invariant |events| == i && forall j :: 0 <= j < i ==> events[j] == Analyzed(Order[j], context.cursor)
        invariant context.Valid() && AtOffset(context.orgLexemes, context.buffOffset)
        invariant From(old(context.orgLexemes), context.orgLexemes)
        invariant context.buffLocker - Names == old(context.buffLocker) - Names
        invariant context.segmentBuff == old(context.segmentBuff) && context.charTypes == old(context.charTypes)
        invariant context.buffOffset == old(context.buffOffset) && context.cursor == old(context.cursor)
        invariant context.available == old(context.available)
        invariant context.pathMap == old(context.pathMap) && context.results == old(context.results)
        invariant input == old(input) && steps == old(steps)
      {
        events := events + [Analyzed(segmenters[i].kind, context.cursor)];
        assert Name(segmenters[i].kind) in Names;
        AnalyzeOne(i);
        i := i + 1;
      }
      assert events == Analyses(context.cursor);
    }

    /** The driver's addLexeme for a run of letters and digits: its span is then a candidate's. */
    method AddLetterRun(start: int, end: int, ghost events: seq<Event>)
      requires context.Valid() && AtOffset(context.orgLexemes, context.buffOffset)
      requires 0 <= start <= end < BuffSize
      requires RunsKept(context.orgLexemes, context.buffOffset, events)
      modifies context
      ensures context.Valid() && AtOffset(context.orgLexemes, context.buffOffset)
      ensures context.orgLexemes == Insert(old(context.orgLexemes), LetterLexeme(context.buffOffset, start, end - start + 1))
      ensures RunsKept(context.orgLexemes, context.buffOffset, events + [LetterRun(start, end - start + 1)])
      ensures context.segmentBuff == old(context.segmentBuff) && context.charTypes == old(context.charTypes)
      ensures context.buffOffset == old(context.buffOffset) && context.cursor == old(context.cursor)
      ensures context.available == old(context.available) && context.buffLocker == old(context.buffLocker)
      ensures context.pathMap == old(context.pathMap) && context.results == old(context.results)
    {
      ghost var prev := context.orgLexemes;
      var l := Lexeme(context.buffOffset, start, end - start + 1, TypeLetter, None);
      context.AddLexeme(l);
      InsertKeeps(prev, l);
      InsertHasSpan(prev, l);
      RunsKeptFrom(prev, context.orgLexemes, context.buffOffset, events);
    }

    /**
     * One turn of the do-while loop up to moveCursor: at a letter or digit the
     * sub-segmenters are reset and the open run extended; elsewhere the open
     * run's lexeme is added, the sub-segmenters analyze, and the refill check
     * is made.
     */
    method VisitPosition(start: int, end: int, ghost events: seq<Event>)
      returns (start': int, end': int, ghost events': seq<Event>, refill: bool)
      requires context.Valid() && Loaded(segmenters) && AtOffset(context.orgLexemes, context.buffOffset)
      requires 0 <= context.cursor < context.available
      requires events == Visit(context.charTypes[..context.cursor])
      requires start == Pending(context.charTypes[..context.cursor])
      requires start != -1 ==> end == context.cursor - 1
      requires RunsKept(context.orgLexemes, context.buffOffset, events)
      modifies this, context
      ensures context.Valid() && Loaded(segmenters) && AtOffset(context.orgLexemes, context.buffOffset)
      ensures events' == Visit(context.charTypes[..context.cursor + 1])
      ensures start' == Pending(context.charTypes[..context.cursor + 1])
      ensures start' != -1 ==> end' == context.cursor
      ensures RunsKept(context.orgLexemes, context.buffOffset, events')
      ensures refill <==> !IsLetter(context.charTypes[context.cursor]) && context.NeedRefillBuffer()
      ensures context.segmentBuff == old(context.segmentBuff) && context.charTypes == old(context.charTypes)
      ensures context.buffOffset == old(context.buffOffset) && context.cursor == old(context.cursor)
      ensures context.available == old(context.available)
      ensures context.pathMap == old(context.pathMap) && context.results == old(context.results)
      ensures input == old(input) && steps == old(steps)
    {
      ghost var t := context.charTypes[..context.cursor + 1];
      assert t[..|t| - 1] == context.charTypes[..context.cursor];
      refill := false;
      if IsLetter(context.charTypes[context.cursor]) {
        ResetSegmenters();
        events' := events + [ResetAt(context.cursor)];
        if start == -1 {
          start' := context.cursor;
          end' := start';
        } else {
          start' := start;
          end' := context.cursor;
        }
      } else {
        events', refill := FlushAndAnalyze(start, end, events);
        start', end' := -1, -1;
      }
    }

    /**
     * The turn of the do-while loop at a position that is not a letter or
     * digit: the open run's lexeme is added, the sub-segmenters analyze, and
     * the refill check is made.
     */
    method FlushAndAnalyze(start: int, end: int, ghost events: seq<Event>) returns (ghost events': seq<Event>, refill: bool)
      requires context.Valid() && Loaded(segmenters) && AtOffset(context.orgLexemes, context.buffOffset)
      requires 0 <= context.cursor < context.available && !IsLetter(context.charTypes[context.cursor])
      requires events == Visit(context.charTypes[..context.cursor])
      requires start == Pending(context.charTypes[..context.cursor])
      requires start != -1 ==> end == context.cursor - 1
      requires RunsKept(context.orgLexemes, context.buffOffset, events)
      modifies this, context
      ensures context.Valid() && Loaded(segmenters) && AtOffset(context.orgLexemes, context.buffOffset)
      ensures events' == Visit(context.charTypes[..context.cursor + 1])
      ensures RunsKept(context.orgLexemes, context.buffOffset, events')
      ensures refill == context.NeedRefillBuffer()
      ensures context.segmentBuff == old(context.segmentBuff) && context.charTypes == old(context.charTypes)
      ensures context.buffOffset == old(context.buffOffset) && context.cursor == old(context.cursor)
      ensures context.available == old(context.available)
      ensures context.pathMap == old(context.pathMap) && context.results == old(context.results)
      ensures input == old(input) && steps == old(steps)
    {
      ghost var init := context.charTypes[..context.cursor];
      ghost var t := context.charTypes[..context.cursor + 1];
      assert t[..|t| - 1] == init && !IsLetter(t[|t| - 1]);
      assert Visit(t) == events + Close(init) + Analyses(context.cursor);
      events' := events;
      if start != -1 {
        AddLetterRun(start, end, events');
        events' := events' + [LetterRun(start, end - start + 1)];
      }
      assert events' == events + Close(init);
      ghost var prev := context.orgLexemes;
      ghost var analyzed := AnalyzeAll();
      RunsKeptFrom(prev, context.orgLexemes, context.buffOffset, events');
      events' := events' + analyzed;
      refill := context.NeedRefillBuffer();
    }

    /**
     * The do-while loop of one pass: from the buffer's first char, visit
     * positions until the last available char, or until a position that is
     * not a letter or digit finds the buffer in need of refilling.
     */
    method Walk() returns (start: int, end: int, ghost t: seq<CharType>, ghost events: seq<Event>)
      requires context.Valid() && Loaded(segmenters) && 1 <= context.available
      requires AtOffset(context.orgLexemes, context.buffOffset)
      modifies this, context, context.segmentBuff, context.charTypes
      ensures context.Valid() && Loaded(segmenters) && AtOffset(context.orgLexemes, context.buffOffset)
      ensures 0 <= context.cursor < context.available
      ensures t == context.charTypes[..context.cursor + 1]
      ensures events == Visit(t) && start == Pending(t)
      ensures start != -1 ==> end == context.cursor
      ensures RunsKept(context.orgLexemes, context.buffOffset, events)
      ensures context.cursor == context.available - 1 || (context.NeedRefillBuffer() && !IsLetter(t[|t| - 1]))
      ensures context.segmentBuff == old(context.segmentBuff) && context.charTypes == old(context.charTypes)
      ensures context.buffOffset == old(context.buffOffset) && context.available == old(context.available)
      ensures context.pathMap == old(context.pathMap) && context.results == old(context.results)
      ensures input == old(input) && steps == old(steps)
    {
      context.InitCursor();
      start, end := -1, -1;
      events := [];
      t := [];
      var refill := false;
      while true
        invariant context.Valid() && Loaded(segmenters) && AtOffset(context.orgLexemes, context.buffOffset)
        invariant 0 <= context.cursor < context.available
        invariant events == Visit(context.charTypes[..context.cursor])
        invariant start == Pending(context.charTypes[..context.cursor])
        invariant start != -1 ==> end == context.cursor - 1
        invariant RunsKept(context.orgLexemes, context.buffOffset, events)
        invariant context.segmentBuff == old(context.segmentBuff) && context.charTypes == old(context.charTypes)
        invariant context.buffOffset == old(context.buffOffset) && context.available == old(context.available)
        invariant context.pathMap == old(context.pathMap) && context.results == old(context.results)
        invariant input == old(input) && steps == old(steps)
        decreases context.available - context.cursor
      {
        start, end, events, refill := VisitPosition(start, end, events);
        t := context.charTypes[..context.cursor + 1];
        if refill {
          return;
        }
        var moved := context.MoveCursor();
        if !moved {
          return;
        }
        assert context.charTypes[..context.cursor] == t;
      }
    }

    /**
     * One pass over a filled buffer: the do-while loop, the flush of the last
     * run and the reset after it. Returns the classes of the positions
     * visited and what was done; the pass ends at the last available char,
     * or early, after a position that is not a letter or digit, once the
     * buffer needs refilling.
     */
    method Scan() returns (ghost t: seq<CharType>, ghost events: seq<Event>)
      requires context.Valid() && Loaded(segmenters) && 1 <= context.available
      requires AtOffset(context.orgLexemes, context.buffOffset)
      modifies this, context, context.segmentBuff, context.charTypes
      ensures context.Valid() && Loaded(segmenters) && AtOffset(context.orgLexemes, context.buffOffset)
      ensures t == context.charTypes[..context.cursor + 1] && events == PassEvents(t)
      ensures context.cursor == context.available - 1 || (context.NeedRefillBuffer() && !IsLetter(t[|t| - 1]))
      ensures forall b, n :: IsRun(t, b, n) ==> HasSpan(context.orgLexemes, LetterLexeme(context.buffOffset, b, n))
      ensures forall j :: 0 <= j < |segmenters| ==> segmenters[j].memory == []
      ensures context.segmentBuff == old(context.segmentBuff) && context.charTypes == old(context.charTypes)
      ensures context.buffOffset == old(context.buffOffset) && context.available == old(context.available)
      ensures context.pathMap == old(context.pathMap) && context.results == old(context.results)
      ensures input == old(input) && steps == old(steps)
    {
      var start, end;
      start, end, t, events := Walk();
      if start != -1 {
        ghost var closing := Close(t);
        assert |t| == end + 1;
        assert closing == [LetterRun(start, end - start + 1)];
        AddLetterRun(start, end, events);
        events := events + closing;
      } else {
        assert Close(t) == [];
      }
      assert events == Visit(t) + Close(t);
      ResetSegmenters();
      events := events + [PassReset];
      PassMeaning(t);
      forall b, n | IsRun(t, b, n)
        ensures HasSpan(context.orgLexemes, LetterLexeme(context.buffOffset, b, n))
      {
        assert LetterRun(b, n) in events;
      }
    }

    /**
     * process, outputToResult and markBufferOffset after a pass: the chosen
     * paths' lexemes from position 0 to the cursor join the emptied queue,
     * and the stream offset advances by the cursor.
     */
    static method Settle(context: AnalyzeContext, useSmart: bool, removeAllCoverTerms: bool, less: PathLess)
      returns (ghost paths: map<int, Path>)
      requires context.Valid() && StrictOrder(less) && AtOffset(context.orgLexemes, context.buffOffset)
      requires context.pathMap == map[] && context.results == []
      modifies context
      ensures context.Valid() && context.orgLexemes == [] && context.pathMap == map[]
      ensures paths == PutAll(map[], CrossPaths(old(context.orgLexemes)), useSmart, less) && PathsOk(paths)
      ensures context.results == IkContext.Output(context.charTypes[..], paths, 0, context.cursor)
      ensures context.buffOffset == old(context.buffOffset) + context.cursor
      ensures context.segmentBuff == old(context.segmentBuff) && context.charTypes == old(context.charTypes)
      ensures context.cursor == old(context.cursor) && context.available == old(context.available)
      ensures context.buffLocker == old(context.buffLocker)
    {
      ghost var candidates := context.orgLexemes;
      Process(context, useSmart, removeAllCoverTerms, less);
      paths := context.pathMap;
      RecordedFromCandidates(candidates, useSmart, less);
      assert context.OnePass() by {
        forall k, i | k in context.pathMap && 0 <= i < |context.pathMap[k]|
          ensures context.pathMap[k][i].offset == context.buffOffset
        {
          assert context.pathMap[k][i] in candidates;
        }
      }
      context.OutputToResult();
      context.MarkBufferOffset();
    }

    /**
     * What follows a fill that read something: the pass, process,
     * outputToResult and markBufferOffset, logged in that order. The stream
     * offset advances by the cursor, which stops short of the available
     * chars, and moves off 0 whenever two chars or more were available.
     */
    method Round(count: int) returns (ghost added: seq<Step>, ghost rt: RoundTrace)
      requires context.Valid() && context.cfg == cfg && Loaded(segmenters) && StrictOrder(less)
      requires context.orgLexemes == [] && context.pathMap == map[] && context.results == []
      requires 1 <= count == context.available
      modifies this, context, context.segmentBuff, context.charTypes
      ensures Valid()
      ensures steps == old(steps) + added && FullRound([Filled(count)] + added)
      ensures context.available == count && context.cursor < count
      ensures context.buffOffset == old(context.buffOffset) + context.cursor
      ensures 2 <= count ==> 1 <= context.cursor
      ensures context.segmentBuff == old(context.segmentBuff) && context.charTypes == old(context.charTypes)
      ensures input == old(input)
      ensures RoundOk(rt, cfg.useSmart, less) && rt.types == context.charTypes[..] && rt.cursor == context.cursor && rt.offset == context.buffOffset - context.cursor && rt.queue == context.results
    {
      ghost var t, events := Scan();
      ghost var cands := context.orgLexemes;
      ghost var types, offset := context.charTypes[..], context.buffOffset;
      assert Sorted(cands) && AllInBuffer(cands);
      assert RunsAmong(types, context.cursor, cands, offset) by {
        assert types[..context.cursor + 1] == t;
      }
      ghost var paths := Settle(context, cfg.useSmart, removeAllCoverTerms, less);
      assert context.charTypes[..] == types && context.buffOffset - context.cursor == offset;
      assert RoundQueue(types, context.cursor, cands, cfg.useSmart, less, context.results);
      rt := RoundTrace(types, context.cursor, offset, cands, context.results);
      added := [Scanned(t, events), Arbitrated, Output, Marked];
      steps := steps + added;
    }

    /** The measure next()'s loop decreases: the unread input plus, once past the first buffer, the unprocessed tail. */
    ghost function Remaining(): int
      reads this, input, context
    {
      |input.rest| + (if context.buffOffset == 0 then 0 else context.available - context.cursor)
    }

    /**
     * One turn of next()'s loop after the queue came up empty: fillBuffer;
     * when it read nothing, the context reset and the end logged; otherwise a
     * whole round, and less input left to segment.
     */
    method FillRound(ghost s0: seq<Step>) returns (ended: bool, ghost rt: RoundTrace)
      requires Valid() && context.results == []
      requires |s0| <= |steps| && steps[..|s0|] == s0 && NextLog(steps[|s0|..], false)
      modifies this, context, context.segmentBuff, context.charTypes, input
      ensures Valid() && input == old(input)
      ensures |s0| <= |steps| && steps[..|s0|] == s0 && NextLog(steps[|s0|..], ended)
      ensures ended ==>
        && context.buffOffset == 0 && context.cursor == 0 && context.available == 0
        && context.results == [] && context.buffLocker == {}
      ensures !ended ==>
        && context.segmentBuff == old(context.segmentBuff) && context.charTypes == old(context.charTypes)
        && Remaining() < old(Remaining())
        && RoundOk(rt, cfg.useSmart, less) && rt.types == context.charTypes[..] && rt.cursor == context.cursor && rt.offset == context.buffOffset - context.cursor && rt.queue == context.results
    {
      ghost var before := Remaining();
      var available := context.FillBuffer(input);
      steps := steps + [Filled(available)];
      if available <= 0 {
        EndOfInput(s0, available);
        return true, RoundTrace([], 0, 0, [], []);
      }
      FillShrinks(old(input.rest), input.rest, context.buffOffset, old(context.available), old(context.cursor), available);
      rt := LoggedRound(s0, available);
      ended := false;
    }

    /** A whole round after a fill that read something, logged after the fill. */
    method LoggedRound(ghost s0: seq<Step>, count: int) returns (ghost rt: RoundTrace)
      requires context.Valid() && context.cfg == cfg && Loaded(segmenters) && StrictOrder(less)
      requires context.orgLexemes == [] && context.pathMap == map[] && context.results == []
      requires 1 <= count == context.available
      requires |s0| + 1 <= |steps| && steps[..|s0|] == s0 && steps[|steps| - 1] == Filled(count)
      requires NextLog(steps[|s0|..|steps| - 1], false)
      modifies this, context, context.segmentBuff, context.charTypes
      ensures Valid() && input == old(input)
      ensures |s0| <= |steps| && steps[..|s0|] == s0 && NextLog(steps[|s0|..], false)
      ensures context.available == count && context.cursor < count
      ensures context.buffOffset == old(context.buffOffset) + context.cursor
      ensures 2 <= count ==> 1 <= context.cursor
      ensures context.segmentBuff == old(context.segmentBuff) && context.charTypes == old(context.charTypes)
      ensures RoundOk(rt, cfg.useSmart, less) && rt.types == context.charTypes[..] && rt.cursor == context.cursor && rt.offset == context.buffOffset - context.cursor && rt.queue == context.results
    {
      ghost var before := steps;
      assert |s0| + 1 <= |before| && before[..|s0|] == s0 && before[|before| - 1] == Filled(count);
      assert NextLog(before[|s0|..|before| - 1], false);
      ghost var added;
      added, rt := Round(count);
      RoundExtend(before, s0, count, added);
    }

    /** The end of the input: a fill that read nothing, then context.reset(), both logged. */
    method EndOfInput(ghost s0: seq<Step>, available: int)
      requires available <= 0 && Loaded(segmenters) && StrictOrder(less) && context.cfg == cfg
      requires |s0| + 1 <= |steps| && steps[..|s0|] == s0 && steps[|steps| - 1] == Filled(available)
      requires NextLog(steps[|s0|..|steps| - 1], false)
      modifies this, context
      ensures Valid() && input == old(input)
      ensures |s0| <= |steps| && steps[..|s0|] == s0 && NextLog(steps[|s0|..], true)
      ensures context.buffOffset == 0 && context.cursor == 0 && context.available == 0
      ensures context.results == [] && context.buffLocker == {}
    {
      ghost var prior := steps[..|steps| - 1];
      assert steps == prior + [Filled(available)];
      assert prior[..|s0|] == s0 && prior[|s0|..] == steps[|s0|..|steps| - 1];
      context.Reset();
      steps := steps + [ContextReset];
      ghost var added := [Filled(available), ContextReset];
      assert steps == prior + added;
      LogExtend(prior, s0, added, true);
    }

    /** getNextLexeme from next(): the queue's first lexeme that is not a stop word, or null with the queue empty. */
    method Poll() returns (r: Option<Lexeme>)
      requires Valid()
      modifies context
      ensures Valid()
      ensures context.segmentBuff == old(context.segmentBuff) && context.charTypes == old(context.charTypes)
      ensures context.buffOffset == old(context.buffOffset) && context.cursor == old(context.cursor)
      ensures context.available == old(context.available) && context.buffLocker == old(context.buffLocker)
      ensures context.segmentBuff[..] == old(context.segmentBuff[..]) && context.charTypes[..] == old(context.charTypes[..])
      ensures Remaining() == old(Remaining())
      ensures (r, context.results) == NextLexeme(cfg.useSmart, old(context.segmentBuff[..]), dict.stopWordDict, old(context.results))
      ensures r.None? ==> context.results == []
      ensures r.Some? ==>
        && InBuffer(r.value, BuffSize)
        && r.value.text == Some(context.segmentBuff[r.value.begin..End(r.value)])
        && !dict.IsStopWord(context.segmentBuff[..], r.value.begin, r.value.length)
    {
      NextLexemeMeaning(cfg.useSmart, context.segmentBuff[..], dict.stopWordDict, context.results);
      r := context.GetNextLexeme(dict);
    }

    /**
     * One turn of next()'s loop once the queue came up empty: fillBuffer, a
     * whole round when it read something, then getNextLexeme on the queue
     * that round left.
     */
    method FillAndPoll(ghost s0: seq<Step>)
      returns (ended: bool, r: Option<Lexeme>, ghost rt: RoundTrace)
      requires Valid() && context.results == []
      requires |s0| <= |steps| && steps[..|s0|] == s0 && NextLog(steps[|s0|..], false)
      modifies this, context, context.segmentBuff, context.charTypes, input
      ensures Valid() && input == old(input)
      ensures |s0| <= |steps| && steps[..|s0|] == s0 && NextLog(steps[|s0|..], ended)
      ensures ended ==>
        && r.None? && context.buffOffset == 0 && context.cursor == 0 && context.available == 0
        && context.results == [] && context.buffLocker == {}
      ensures !ended ==>
        && context.segmentBuff == old(context.segmentBuff) && context.charTypes == old(context.charTypes)
        && Remaining() < old(Remaining())
      ensures r.None? ==> context.results == []
      ensures r.Some? ==>
        && InBuffer(r.value, BuffSize)
        && r.value.text == Some(context.segmentBuff[r.value.begin..End(r.value)])
        && !dict.IsStopWord(context.segmentBuff[..], r.value.begin, r.value.length)
      ensures r.Some? ==>
        && RoundOk(rt, cfg.useSmart, less) && rt.types == context.charTypes[..] && rt.cursor == context.cursor && rt.offset == context.buffOffset - context.cursor
        && (r, context.results) == NextLexeme(cfg.useSmart, context.segmentBuff[..], dict.stopWordDict, rt.queue)
    {
      ended, rt := FillRound(s0);
      if ended {
        return ended, None, rt;
      }
      assert RoundOk(rt, cfg.useSmart, less) && rt.queue == context.results;
      assert rt.types == context.charTypes[..] && rt.cursor == context.cursor && rt.offset == context.buffOffset - context.cursor;
      r := Poll();
    }

    /**
     * next()'s loop once the queue came up empty: refill and run rounds until
     * the queue yields a lexeme, or return null, with the context reset, once
     * a fill reads nothing.
     */
    method RoundsUntilLexeme() returns (r: Option<Lexeme>, ghost rt: RoundTrace)
      requires Valid() && context.results == []
      modifies this, context, context.segmentBuff, context.charTypes, input
      ensures Valid() && input == old(input)
      ensures |old(steps)| <= |steps| && steps[..|old(steps)|] == old(steps)
      ensures NextLog(steps[|old(steps)|..], r.None?)
      ensures r.None? ==>
        && context.buffOffset == 0 && context.cursor == 0 && context.available == 0
        && context.results == [] && context.buffLocker == {}
      ensures r.Some? ==>
        && InBuffer(r.value, BuffSize)
        && r.value.text == Some(context.segmentBuff[r.value.begin..End(r.value)])
        && !dict.IsStopWord(context.segmentBuff[..], r.value.begin, r.value.length)
      ensures r.Some? ==>
        && RoundOk(rt, cfg.useSmart, less) && rt.types == context.charTypes[..] && rt.cursor == context.cursor && rt.offset == context.buffOffset - context.cursor
        && (r, context.results) == NextLexeme(cfg.useSmart, context.segmentBuff[..], dict.stopWordDict, rt.queue)
    {
      ghost var s0 := steps;
      r, rt := None, RoundTrace([], 0, 0, [], []);
      assert steps[|s0|..] == [];
      while r.None?
        invariant Valid() && input == old(input)
        invariant context.segmentBuff == old(context.segmentBuff) && context.charTypes == old(context.charTypes)
        invariant |s0| <= |steps| && steps[..|s0|] == s0 && NextLog(steps[|s0|..], false)
        invariant r.None? ==> context.results == []
        invariant r.Some? ==>
          && InBuffer(r.value, BuffSize)
          && r.value.text == Some(context.segmentBuff[r.value.begin..End(r.value)])
          && !dict.IsStopWord(context.segmentBuff[..], r.value.begin, r.value.length)
        invariant r.Some? ==>
          && RoundOk(rt, cfg.useSmart, less) && rt.types == context.charTypes[..] && rt.cursor == context.cursor && rt.offset == context.buffOffset - context.cursor
          && (r, context.results) == NextLexeme(cfg.useSmart, context.segmentBuff[..], dict.stopWordDict, rt.queue)
        decreases Remaining()
      {
        var ended;
        ended, r, rt := FillAndPoll(s0);
        if ended {
          return;
        }
      }
    }

    /**
     * next(): the queue's next lexeme; when the queue yields none, refills
     * and whole rounds until it does; null, with the context reset, once a
     * fill reads nothing.
     */
    method Next() returns (r: Option<Lexeme>, ghost rt: RoundTrace)
      requires Valid()
      modifies this, context, context.segmentBuff, context.charTypes, input
      ensures Valid() && input == old(input)
      ensures |old(steps)| <= |steps| && steps[..|old(steps)|] == old(steps)
      ensures NextLog(steps[|old(steps)|..], r.None?)
      ensures r.None? ==>
        && context.buffOffset == 0 && context.cursor == 0 && context.available == 0
        && context.results == [] && context.buffLocker == {}
      ensures r.Some? ==>
        && InBuffer(r.value, BuffSize)
        && r.value.text == Some(context.segmentBuff[r.value.begin..End(r.value)])
        && !dict.IsStopWord(context.segmentBuff[..], r.value.begin, r.value.length)
      ensures
        var (l, rest) := NextLexeme(cfg.useSmart, old(context.segmentBuff[..]), dict.stopWordDict, old(context.results));
        l.Some? ==> r == l && context.results == rest && steps == old(steps)
      ensures
        var (l, _) := NextLexeme(cfg.useSmart, old(context.segmentBuff[..]), dict.stopWordDict, old(context.results));
        l.None? && r.Some? ==>
          && RoundOk(rt, cfg.useSmart, less) && rt.types == context.charTypes[..] && rt.cursor == context.cursor && rt.offset == context.buffOffset - context.cursor
          && (r, context.results) == NextLexeme(cfg.useSmart, context.segmentBuff[..], dict.stopWordDict, rt.queue)
    {
      rt := RoundTrace([], 0, 0, [], context.results);
      r := Poll();
      if r.None? {
        r, rt := RoundsUntilLexeme();
      } else {
        assert steps[|old(steps)|..] == [];
      }
    }
  }
}
