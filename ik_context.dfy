/**
 * AnalyzeContext: the scan session of the IK segmenter. It owns the sliding
 * char buffer and the per-position char classes, the cursor, the count of
 * chars available and the stream offset of the buffer, the names of the
 * sub-segmenters holding the buffer, the candidate lexemes of the current
 * pass, the paths chosen for them by start position, and the queue of lexemes
 * ready for output.
 */
module IkContext {
  import opened JavaLang
  import opened IkLexeme
  import opened IkDictionary

  /** BUFF_SIZE. */
  const BuffSize: int := 4096
  /** BUFF_EXHAUST_CRITICAL. */
  const BuffExhaustCritical: int := 100

  /** What Reader.read(cbuf, off, len) returns for the remaining input: 0 for len 0, -1 at the end, else the count read. */
  function ReadCount(rest: seq<char>, len: int): (n: int)
    ensures len <= 0 ==> n == 0
    ensures len > 0 && rest == [] ==> n == -1
    ensures len > 0 && rest != [] ==> 1 <= n <= len && n <= |rest| && (n == len || n == |rest|)
  {
    if len <= 0 then 0 else if rest == [] then -1 else Min(len, |rest|)
  }

  /** How many chars a read that returned n took from the input. */
  function Consumed(n: int): nat
  {
    if n > 0 then n else 0
  }

  /** A java.io.Reader: the part of the input not read yet. */
  class Reader {
    var rest: seq<char>

    constructor (text: seq<char>)
      ensures rest == text
    {
      rest := text;
    }

    /** read(cbuf, off, len): as many chars as are left, up to len, into cbuf from off. */
    method Read(buf: array<char>, off: int, len: int) returns (n: int)
      requires 0 <= off && 0 <= len && off + len <= buf.Length
      modifies this, buf
      ensures n == ReadCount(old(rest), len)
      ensures n <= 0 ==> rest == old(rest) && buf[..] == old(buf[..])
      ensures n > 0 ==>
        && rest == old(rest)[n..]
        && buf[..off] == old(buf[..off]) && buf[off..off + n] == old(rest)[..n]
        && buf[off + n..] == old(buf[off + n..])
    {
      n := ReadCount(rest, len);
      if n <= 0 {
        return;
      }
      var k := 0;
      while k < n
        invariant 0 <= k <= n && rest == old(rest)
        invariant buf[..off] == old(buf[..off]) && buf[off..off + k] == rest[..k]
        invariant buf[off + k..] == old(buf[off + k..])
      {
        buf[off + k] := rest[k];
        k := k + 1;
      }
      rest := rest[n..];
    }
  }

  /** Every lexeme fits the buffer. */
  predicate AllInBuffer(s: seq<Lexeme>)
  {
    forall i :: 0 <= i < |s| ==> InBuffer(s[i], BuffSize)
  }

  /** All lexemes of the output queue come from one pass, so share one stream offset. */
  predicate SameOffset(s: seq<Lexeme>)
  {
    forall i :: 0 <= i < |s| ==> s[i].offset == s[0].offset
  }

  /** A path as pathMap holds it: in set order, in the buffer, under its begin. */
  predicate PathOk(k: int, p: Path)
  {
    Sorted(p) && AllInBuffer(p) && k == PathBegin(p)
  }

  predicate PathsOk(m: map<int, Path>)
  {
    forall k :: k in m ==> PathOk(k, m[k])
  }

  /** A path stored under a start position ends after it. */
  lemma PathAdvances(k: int, p: Path)
    requires PathOk(k, p) && k >= 0
    ensures p != [] && End(p[|p| - 1]) > k
  {
    assert |p| == 1 || Before(p[0], p[|p| - 1]);
  }

  // ---------------------------------------------------------------------------
  // Compounding numerals and quantifiers
  // ---------------------------------------------------------------------------

  /** Lexeme.append: the next lexeme is absorbed when it starts where this one ends in the stream. */
  function Append(a: Lexeme, b: Lexeme, t: LexemeType): (Lexeme, bool)
  {
    if a.offset + End(a) == b.offset + b.begin then (a.(length := a.length + b.length, lexemeType := t), true)
    else (a, false)
  }

  /** The first round: an Arabic numeral absorbs a following Chinese numeral or count word. */
  function CompoundArabic(result: Lexeme, rs: seq<Lexeme>): (Lexeme, seq<Lexeme>)
  {
    if rs == [] || result.lexemeType != TypeArabic then (result, rs)
    else
      var next := rs[0];
      var (a, ok) :=
        if next.lexemeType == TypeCNum then Append(result, next, TypeCNum)
        else if next.lexemeType == TypeCount then Append(result, next, TypeCQuan)
        else (result, false);
      if ok then (a, rs[1..]) else (a, rs)
  }

  /** The second round: a Chinese numeral absorbs a following count word. */
  function CompoundCNum(result: Lexeme, rs: seq<Lexeme>): (Lexeme, seq<Lexeme>)
  {
    if rs == [] || result.lexemeType != TypeCNum then (result, rs)
    else
      var next := rs[0];
      var (a, ok) := if next.lexemeType == TypeCount then Append(result, next, TypeCQuan) else (result, false);
      if ok then (a, rs[1..]) else (a, rs)
  }

  /** compound: nothing outside smart mode; otherwise the two rounds over the head of the queue. */
  function Compound(useSmart: bool, result: Lexeme, rs: seq<Lexeme>): (Lexeme, seq<Lexeme>)
  {
    if !useSmart || rs == [] then (result, rs)
    else
      var (r1, rs1) := CompoundArabic(result, rs);
      CompoundCNum(r1, rs1)
  }

  /**
   * What compounding does: it takes k <= 2 lexemes off the queue head, each
   * starting where the growing lexeme ends, and adds their lengths; only an
   * Arabic numeral followed by a Chinese numeral or count word, or a Chinese
   * numeral followed by a count word, are merged, into CNUM or CQUAN.
   */
  lemma CompoundMeaning(useSmart: bool, result: Lexeme, rs: seq<Lexeme>)
    ensures var (r, rest) := Compound(useSmart, result, rs);
      var k := |rs| - |rest|;
        && 0 <= k <= 2 && rest == rs[k..]
        && (!useSmart ==> k == 0)
        && r.offset == result.offset && r.begin == result.begin && r.text == result.text
        && r.length == result.length + (if k >= 1 then rs[0].length else 0) + (if k == 2 then rs[1].length else 0)
        && (k == 0 ==> r == result)
        && (k >= 1 ==> result.offset + End(result) == rs[0].offset + rs[0].begin)
        && (k == 2 ==> rs[0].offset + End(rs[0]) == rs[1].offset + rs[1].begin)
        && (k == 1 ==>
              || (result.lexemeType == TypeArabic && rs[0].lexemeType == TypeCNum && r.lexemeType == TypeCNum)
              || (result.lexemeType == TypeArabic && rs[0].lexemeType == TypeCount && r.lexemeType == TypeCQuan)
              || (result.lexemeType == TypeCNum && rs[0].lexemeType == TypeCount && r.lexemeType == TypeCQuan))
        && (k == 2 ==>
              && result.lexemeType == TypeArabic && rs[0].lexemeType == TypeCNum
              && rs[1].lexemeType == TypeCount && r.lexemeType == TypeCQuan)
  {
    if useSmart && rs != [] {
      var (r1, rs1) := CompoundArabic(result, rs);
      CompoundArabicMeaning(result, rs);
      CompoundCNumMeaning(r1, rs1);
      if |rs1| < |rs| {
        assert rs1 == rs[1..];
        if |rs1| > 0 {
          assert rs1[0] == rs[1];
          assert rs1[1..] == rs[2..];
        }
      } else {
        assert rs1 == rs;
      }
    } else {
      assert rs[0..] == rs;
    }
  }

  /** The first round takes at most the head, an Arabic numeral's Chinese numeral or count word next to it. */
  lemma CompoundArabicMeaning(result: Lexeme, rs: seq<Lexeme>)
    ensures var (r, rest) := CompoundArabic(result, rs);
      && (rest == rs ==> r == result)
      && (rest != rs ==>
            && rs != [] && rest == rs[1..] && result.lexemeType == TypeArabic
            && result.offset + End(result) == rs[0].offset + rs[0].begin
            && r == result.(length := result.length + rs[0].length, lexemeType := r.lexemeType)
            && ((rs[0].lexemeType == TypeCNum && r.lexemeType == TypeCNum)
                || (rs[0].lexemeType == TypeCount && r.lexemeType == TypeCQuan)))
  {
  }

  /** The second round takes at most the head, a count word next to a Chinese numeral. */
  lemma CompoundCNumMeaning(result: Lexeme, rs: seq<Lexeme>)
    ensures var (r, rest) := CompoundCNum(result, rs);
      && (rest == rs ==> r == result)
      && (rest != rs ==>
            && rs != [] && rest == rs[1..] && result.lexemeType == TypeCNum
            && result.offset + End(result) == rs[0].offset + rs[0].begin
            && r == result.(length := result.length + rs[0].length, lexemeType := TypeCQuan)
            && rs[0].lexemeType == TypeCount)
  {
  }

  /** A compounded lexeme of one pass still fits the buffer. */
  lemma CompoundInBuffer(useSmart: bool, result: Lexeme, rs: seq<Lexeme>)
    requires InBuffer(result, BuffSize) && AllInBuffer(rs)
    requires forall i :: 0 <= i < |rs| ==> rs[i].offset == result.offset
    ensures var (r, rest) := Compound(useSmart, result, rs);
      InBuffer(r, BuffSize) && r.offset == result.offset && AllInBuffer(rest) && |rest| <= |rs|
      && forall i :: 0 <= i < |rest| ==> rest[i].offset == result.offset
  {
    CompoundMeaning(useSmart, result, rs);
  }

  // ---------------------------------------------------------------------------
  // Output of the chosen paths
  // ---------------------------------------------------------------------------

  /**
   * outputToResult from a position on: USELESS positions are skipped; a
   * position where a path starts emits that path's lexemes and moves past its
   * last one; any other position emits nothing.
   */
  function Output(types: seq<CharType>, m: map<int, Path>, index: int, cursor: int): seq<Lexeme>
    requires PathsOk(m) && 0 <= index && cursor < |types|
    decreases cursor + 1 - index
  {
    if index > cursor then []
    else if types[index] == CharUseless then Output(types, m, index + 1, cursor)
    else if index in m then
      var p := m[index];
      PathAdvances(index, p);
      p + Output(types, m, End(p[|p| - 1]), cursor)
    else Output(types, m, index + 1, cursor)
  }

  /** Everything output comes from a path of the map. */
  lemma {:induction false} OutputFromPaths(types: seq<CharType>, m: map<int, Path>, index: int, cursor: int, x: Lexeme)
    requires PathsOk(m) && 0 <= index && cursor < |types|
    requires x in Output(types, m, index, cursor)
    ensures exists k :: k in m && index <= k <= cursor && x in m[k]
    decreases cursor + 1 - index
  {
    if index <= cursor {
      if types[index] == CharUseless || index !in m {
        OutputFromPaths(types, m, index + 1, cursor, x);
      } else {
        var p := m[index];
        PathAdvances(index, p);
        if x !in p {
          OutputFromPaths(types, m, End(p[|p| - 1]), cursor, x);
        }
      }
    }
  }

  /** What is output is a lexeme of some path, so it fits the buffer and keeps the paths' offset. */
  lemma OutputFromPathsAll(types: seq<CharType>, m: map<int, Path>, index: int, cursor: int)
    requires PathsOk(m) && 0 <= index && cursor < |types|
    ensures forall x :: x in Output(types, m, index, cursor) ==> exists k :: k in m && index <= k <= cursor && x in m[k]
  {
    forall x | x in Output(types, m, index, cursor)
      ensures exists k :: k in m && index <= k <= cursor && x in m[k]
    {
      OutputFromPaths(types, m, index, cursor, x);
    }
  }

  /** The start positions of paths from index to cursor, in increasing order. */
  function KeysFrom(m: map<int, Path>, index: int, cursor: int): seq<int>
    decreases cursor + 1 - index
  {
    if index > cursor then []
    else (if index in m then [index] else []) + KeysFrom(m, index + 1, cursor)
  }

  /** The paths under the given start positions, one after another. */
  function PathsAt(m: map<int, Path>, ks: seq<int>): seq<Lexeme>
  {
    if ks == [] then [] else (if ks[0] in m then m[ks[0]] else []) + PathsAt(m, ks[1..])
  }

  /** The paths do not reach each other's start: a lexeme of one path ends by the start of every later one. */
  predicate Separated(m: map<int, Path>)
  {
    forall k1, k2, i :: k1 in m && k2 in m && 0 <= k1 < k2 && 0 <= i < |m[k1]| ==> End(m[k1][i]) <= k2
  }

  /** No path starts at a USELESS position. */
  predicate StartsUseful(types: seq<CharType>, m: map<int, Path>)
  {
    forall k :: k in m && 0 <= k < |types| ==> types[k] != CharUseless
  }

  /** No start position in [lo, hi). */
  lemma KeysFromEmpty(m: map<int, Path>, lo: int, hi: int, cursor: int)
    requires forall k :: lo <= k < hi && k <= cursor ==> k !in m
    requires lo <= hi
    ensures KeysFrom(m, lo, cursor) == KeysFrom(m, hi, cursor)
    decreases hi - lo
  {
    if lo < hi && lo <= cursor {
      KeysFromEmpty(m, lo + 1, hi, cursor);
    }
  }

  /**
   * When the paths are separated and none starts at a USELESS position, the
   * output is every path starting from index to cursor, in start order.
   */
  lemma {:induction false} OutputAllPaths(types: seq<CharType>, m: map<int, Path>, index: int, cursor: int)
    requires PathsOk(m) && 0 <= index && cursor < |types|
    requires Separated(m) && StartsUseful(types, m)
    ensures Output(types, m, index, cursor) == PathsAt(m, KeysFrom(m, index, cursor))
    decreases cursor + 1 - index
  {
    if index <= cursor {
      if types[index] == CharUseless || index !in m {
        assert index !in m;
        OutputAllPaths(types, m, index + 1, cursor);
        assert KeysFrom(m, index, cursor) == KeysFrom(m, index + 1, cursor);
      } else {
        var p := m[index];
        PathAdvances(index, p);
        var next := End(p[|p| - 1]);
        OutputAllPaths(types, m, next, cursor);
        KeysFromEmpty(m, index + 1, next, cursor);
        assert KeysFrom(m, index, cursor) == [index] + KeysFrom(m, index + 1, cursor);
      }
    }
  }

  // ---------------------------------------------------------------------------
  // Taking the next lexeme
  // ---------------------------------------------------------------------------

  /**
   * getNextLexeme over the queue: each head is compounded; a stop word is
   * dropped and the next head tried; the first other lexeme gets its text from
   * the buffer and is returned with what is left of the queue.
   */
  function NextLexeme(useSmart: bool, buf: seq<char>, stop: Trie, rs: seq<Lexeme>): (r: (Option<Lexeme>, seq<Lexeme>))
    requires |buf| == BuffSize && AllInBuffer(rs) && SameOffset(rs)
    ensures AllInBuffer(r.1) && SameOffset(r.1) && |r.1| <= |rs|
    ensures rs != [] ==> |r.1| < |rs|
    decreases |rs|
  {
    if rs == [] then (None, [])
    else
      CompoundInBuffer(useSmart, rs[0], rs[1..]);
      var (c, rest) := Compound(useSmart, rs[0], rs[1..]);
      if Enabled(stop, buf[c.begin..End(c)]) then NextLexeme(useSmart, buf, stop, rest)
      else (Some(c.(text := Some(buf[c.begin..End(c)]))), rest)
  }

  /** getNextLexeme's loop turn: the head after compounding is dropped when a stop word, returned otherwise. */
  lemma NextLexemeUnfold(useSmart: bool, buf: seq<char>, stop: Trie, head: Lexeme, rest: seq<Lexeme>)
    requires |buf| == BuffSize && InBuffer(head, BuffSize) && AllInBuffer(rest)
    requires forall i :: 0 <= i < |rest| ==> rest[i].offset == head.offset
    ensures AllInBuffer([head] + rest) && SameOffset([head] + rest)
    ensures var (c, rs) := Compound(useSmart, head, rest);
      && InBuffer(c, BuffSize)
      && NextLexeme(useSmart, buf, stop, [head] + rest)
         == if Enabled(stop, buf[c.begin..End(c)]) then NextLexeme(useSmart, buf, stop, rs)
            else (Some(c.(text := Some(buf[c.begin..End(c)]))), rs)
  {
    var s := [head] + rest;
    assert s[0] == head && s[1..] == rest;
    assert forall i :: 0 < i < |s| ==> s[i] == rest[i - 1];
    CompoundInBuffer(useSmart, head, rest);
  }

  /**
   * null only once the queue is empty; otherwise a lexeme that is not a stop
   * word, with its own span of the buffer as its text.
   */
  lemma {:induction false} NextLexemeMeaning(useSmart: bool, buf: seq<char>, stop: Trie, rs: seq<Lexeme>)
    requires |buf| == BuffSize && AllInBuffer(rs) && SameOffset(rs)
    ensures var (r, rest) := NextLexeme(useSmart, buf, stop, rs);
      && (r.None? ==> rest == [])
      && (rs == [] ==> r.None?)
      && (r.Some? ==>
            && InBuffer(r.value, BuffSize)
            && r.value.text == Some(buf[r.value.begin..End(r.value)])
            && !Match(stop, buf, r.value.begin, r.value.length).isMatch)
    decreases |rs|
  {
    if rs != [] {
      CompoundInBuffer(useSmart, rs[0], rs[1..]);
      var (c, rest) := Compound(useSmart, rs[0], rs[1..]);
      if Enabled(stop, buf[c.begin..End(c)]) {
        NextLexemeMeaning(useSmart, buf, stop, rest);
      }
    }
  }

  // ---------------------------------------------------------------------------
  // The context
  // ---------------------------------------------------------------------------

  class AnalyzeContext {
    const cfg: Configuration
    /** CharacterUtil.regularize: the normal form of a char. */
    const regularize: char -> char
    /** CharacterUtil.identifyCharType. */
    const identifyCharType: char -> CharType
    var segmentBuff: array<char>
    var charTypes: array<CharType>
    var buffOffset: int
    var cursor: int
    var available: int
    var buffLocker: set<string>
    var orgLexemes: seq<Lexeme>
    var pathMap: map<int, Path>
    var results: seq<Lexeme>

    /** The buffers' size, the bounds of cursor and available, and lexemes that fit the buffer. */
    ghost predicate Valid()
      reads this
    {
      && segmentBuff.Length == BuffSize && charTypes.Length == BuffSize
      && 0 <= cursor < BuffSize && -1 <= available <= BuffSize && 0 <= buffOffset
      && Sorted(orgLexemes) && AllInBuffer(orgLexemes)
      && PathsOk(pathMap)
      && AllInBuffer(results) && SameOffset(results)
    }

    constructor (cfg: Configuration, regularize: char -> char, identifyCharType: char -> CharType)
      ensures Valid() && fresh(segmentBuff) && fresh(charTypes)
      ensures this.cfg == cfg && this.regularize == regularize && this.identifyCharType == identifyCharType
      ensures buffOffset == 0 && cursor == 0 && available == 0
      ensures buffLocker == {} && orgLexemes == [] && pathMap == map[] && results == []
    {
      this.cfg := cfg;
      this.regularize := regularize;
      this.identifyCharType := identifyCharType;
      segmentBuff := new char[BuffSize](_ => '\0');
      charTypes := new CharType[BuffSize](_ => CharUseless);
      buffOffset := 0;
      cursor := 0;
      available := 0;
      buffLocker := {};
      orgLexemes := [];
      pathMap := map[];
      results := [];
    }

    /** compound: the head lexeme after merging, with the queue it leaves. */
    method CompoundHead(result: Lexeme) returns (r: Lexeme)
      requires Valid()
      modifies this
      ensures Valid()
      ensures (r, results) == Compound(cfg.useSmart, result, old(results))
      ensures segmentBuff == old(segmentBuff) && charTypes == old(charTypes)
      ensures buffOffset == old(buffOffset) && cursor == old(cursor) && available == old(available)
      ensures buffLocker == old(buffLocker) && orgLexemes == old(orgLexemes) && pathMap == old(pathMap)
    {
      CompoundMeaning(cfg.useSmart, result, results);
      r := result;
      if !cfg.useSmart {
        return;
      }
      if results != [] {
        if r.lexemeType == TypeArabic {
          var nextLexeme := results[0];
          var appendOk := false;
          if nextLexeme.lexemeType == TypeCNum {
            r, appendOk := Append(r, nextLexeme, TypeCNum).0, Append(r, nextLexeme, TypeCNum).1;
          } else if nextLexeme.lexemeType == TypeCount {
            r, appendOk := Append(r, nextLexeme, TypeCQuan).0, Append(r, nextLexeme, TypeCQuan).1;
          }
          if appendOk {
            results := results[1..];
          }
        }
        if r.lexemeType == TypeCNum && results != [] {
          var nextLexeme := results[0];
          var appendOk := false;
          if nextLexeme.lexemeType == TypeCount {
            r, appendOk := Append(r, nextLexeme, TypeCQuan).0, Append(r, nextLexeme, TypeCQuan).1;
          }
          if appendOk {
            results := results[1..];
          }
        }
      }
    }

    /** addLexeme: into the candidate set. */
    method AddLexeme(lexeme: Lexeme)
      requires Valid() && InBuffer(lexeme, BuffSize)
      modifies this
      ensures Valid()
      ensures orgLexemes == Insert(old(orgLexemes), lexeme)
      ensures segmentBuff == old(segmentBuff) && charTypes == old(charTypes)
      ensures buffOffset == old(buffOffset) && cursor == old(cursor) && available == old(available)
      ensures buffLocker == old(buffLocker) && pathMap == old(pathMap) && results == old(results)
    {
      ghost var prev := orgLexemes;
      orgLexemes := Insert(orgLexemes, lexeme);
      assert forall i :: 0 <= i < |orgLexemes| ==> orgLexemes[i] in orgLexemes;
      assert forall i :: 0 <= i < |prev| ==> prev[i] in prev;
    }

    /** addLexemePath: a non-null path under its begin, replacing any path there. */
    method AddLexemePath(path: Option<Path>)
      requires Valid() && (path.Some? ==> Sorted(path.value) && AllInBuffer(path.value))
      modifies this
      ensures Valid()
      ensures path.None? ==> pathMap == old(pathMap)
      ensures path.Some? ==> pathMap == old(pathMap)[PathBegin(path.value) := path.value]
      ensures segmentBuff == old(segmentBuff) && charTypes == old(charTypes)
      ensures buffOffset == old(buffOffset) && cursor == old(cursor) && available == old(available)
      ensures buffLocker == old(buffLocker) && orgLexemes == old(orgLexemes) && results == old(results)
    {
      if path.Some? {
        pathMap := pathMap[PathBegin(path.value) := path.value];
      }
    }

    /**
     * fillBuffer: the first time, as much of the input as fits; later, the
     * unprocessed tail [cursor, available) moves to the head and the input
     * fills the rest. available becomes the count and the cursor goes back
     * to 0; the reader's -1 at the end of the input is added in as it is.
     */
    method FillBuffer(reader: Reader) returns (readCount: int)
      requires Valid() && (buffOffset != 0 ==> cursor <= available)
      modifies this, segmentBuff, reader
      ensures Valid()
      ensures buffOffset == old(buffOffset) && cursor == 0 && available == readCount
      ensures old(buffOffset) == 0 ==>
        && readCount == ReadCount(old(reader.rest), BuffSize)
        && (readCount > 0 ==> segmentBuff[..readCount] == old(reader.rest)[..readCount])
      ensures old(buffOffset) != 0 ==>
        var offset := old(available) - old(cursor);
        var n := ReadCount(old(reader.rest), BuffSize - offset);
        && readCount == offset + n
        && segmentBuff[..offset] == old(segmentBuff[cursor..available])
        && (n > 0 ==> segmentBuff[offset..offset + n] == old(reader.rest)[..n])
      ensures old(buffOffset) == 0 ==> reader.rest == old(reader.rest)[Consumed(readCount)..]
      ensures old(buffOffset) != 0 ==> reader.rest == old(reader.rest)[Consumed(readCount - (old(available) - old(cursor)))..]
      ensures segmentBuff == old(segmentBuff) && charTypes == old(charTypes)
      ensures buffLocker == old(buffLocker) && orgLexemes == old(orgLexemes)
      ensures pathMap == old(pathMap) && results == old(results)
    {
      readCount := 0;
      if buffOffset == 0 {
        readCount := reader.Read(segmentBuff, 0, segmentBuff.Length);
      } else {
        var offset := available - cursor;
        if offset > 0 {
          CopyToHead(segmentBuff, cursor, offset);
          readCount := offset;
        }
        ghost var moved := segmentBuff[..offset];
        var n := reader.Read(segmentBuff, offset, BuffSize - offset);
        assert segmentBuff[..offset] == moved;
        readCount := readCount + n;
      }
      available := readCount;
      cursor := 0;
    }

    /** System.arraycopy(buf, from, buf, 0, count): the count chars from the given position move to the head. */
    static method CopyToHead(buf: array<char>, from: int, count: int)
      requires 0 <= from && 0 <= count && from + count <= buf.Length
      modifies buf
      ensures buf[..count] == old(buf[from..from + count])
      ensures buf[count..] == old(buf[count..])
    {
      forall i | 0 <= i < count {
        buf[i] := buf[from + i];
      }
    }

    /** initCursor: the cursor at 0, that char normalised and classified. */
    method InitCursor()
      requires Valid()
      modifies this, segmentBuff, charTypes
      ensures Valid() && cursor == 0
      ensures segmentBuff[..] == old(segmentBuff[..])[0 := regularize(old(segmentBuff[0]))]
      ensures charTypes[..] == old(charTypes[..])[0 := identifyCharType(segmentBuff[0])]
      ensures segmentBuff == old(segmentBuff) && charTypes == old(charTypes)
      ensures buffOffset == old(buffOffset) && available == old(available)
      ensures buffLocker == old(buffLocker) && orgLexemes == old(orgLexemes)
      ensures pathMap == old(pathMap) && results == old(results)
    {
      cursor := 0;
      segmentBuff[cursor] := regularize(segmentBuff[cursor]);
      charTypes[cursor] := identifyCharType(segmentBuff[cursor]);
    }

    /** isBufferLocked: some sub-segmenter holds the buffer. */
    predicate IsBufferLocked()
      reads this
    {
      buffLocker != {}
    }

    /** lockBuffer: the name joins the holders. */
    method LockBuffer(segmenterName: string)
      modifies this
      ensures buffLocker == old(buffLocker) + {segmenterName} && IsBufferLocked()
      ensures segmentBuff == old(segmentBuff) && charTypes == old(charTypes)
      ensures buffOffset == old(buffOffset) && cursor == old(cursor) && available == old(available)
      ensures orgLexemes == old(orgLexemes) && pathMap == old(pathMap) && results == old(results)
    {
      buffLocker := buffLocker + {segmenterName};
    }

    /** unlockBuffer: the name leaves the holders; the buffer stays locked while any other name holds it. */
    method UnlockBuffer(segmenterName: string)
      modifies this
      ensures buffLocker == old(buffLocker) - {segmenterName}
      ensures IsBufferLocked() <==> exists n :: n in old(buffLocker) && n != segmenterName
      ensures segmentBuff == old(segmentBuff) && charTypes == old(charTypes)
      ensures buffOffset == old(buffOffset) && cursor == old(cursor) && available == old(available)
      ensures orgLexemes == old(orgLexemes) && pathMap == old(pathMap) && results == old(results)
    {
      buffLocker := buffLocker - {segmenterName};
      if n :| n in old(buffLocker) && n != segmenterName {
        assert n in buffLocker;
      }
    }

    /** markBufferOffset: the stream offset advances by the cursor, so the char at the cursor is read again. */
    method MarkBufferOffset()
      modifies this
      ensures buffOffset == old(buffOffset) + old(cursor)
      ensures segmentBuff == old(segmentBuff) && charTypes == old(charTypes)
      ensures cursor == old(cursor) && available == old(available) && buffLocker == old(buffLocker)
      ensures orgLexemes == old(orgLexemes) && pathMap == old(pathMap) && results == old(results)
    {
      buffOffset := buffOffset + cursor;
    }

    /**
     * moveCursor: before the last available char the cursor advances and only
     * the new position is normalised and classified; at it nothing changes.
     */
    method MoveCursor() returns (moved: bool)
      requires Valid()
      modifies this, segmentBuff, charTypes
      ensures Valid()
      ensures moved <==> old(cursor) < old(available) - 1
      ensures moved ==>
        && cursor == old(cursor) + 1
        && segmentBuff[..] == old(segmentBuff[..])[cursor := regularize(old(segmentBuff[cursor + 1]))]
        && charTypes[..] == old(charTypes[..])[cursor := identifyCharType(segmentBuff[cursor])]
      ensures !moved ==> cursor == old(cursor) && segmentBuff[..] == old(segmentBuff[..]) && charTypes[..] == old(charTypes[..])
      ensures segmentBuff == old(segmentBuff) && charTypes == old(charTypes)
      ensures buffOffset == old(buffOffset) && available == old(available) && buffLocker == old(buffLocker)
      ensures orgLexemes == old(orgLexemes) && pathMap == old(pathMap) && results == old(results)
    {
      if cursor < available - 1 {
        cursor := cursor + 1;
        segmentBuff[cursor] := regularize(segmentBuff[cursor]);
        charTypes[cursor] := identifyCharType(segmentBuff[cursor]);
        return true;
      }
      return false;
    }

    /**
     * needRefillBuffer: a full buffer, the cursor inside the last
     * BUFF_EXHAUST_CRITICAL positions but before the last one, and no holder;
     * the tail kept by the next fill is then 2 to 99 chars.
     */
    predicate NeedRefillBuffer()
      reads this
    {
      available == BuffSize && cursor < available - 1 && cursor > available - BuffExhaustCritical && !IsBufferLocked()
    }

    lemma RefillTail()
      requires NeedRefillBuffer()
      ensures 2 <= available - cursor < BuffExhaustCritical
      ensures available == BuffSize && buffLocker == {}
    {
    }

    /**
     * The walk of outputToResult over the buffer positions up to the cursor,
     * appending the lexemes of each path met to the queue.
     */
    static method WalkPaths(charTypes: array<CharType>, pathMap: map<int, Path>, cursor: int, results: seq<Lexeme>)
      returns (res: seq<Lexeme>)
      requires PathsOk(pathMap) && 0 <= cursor < charTypes.Length
      ensures res == results + Output(charTypes[..], pathMap, 0, cursor)
    {
      ghost var types := charTypes[..];
      res := results;
      var index := 0;
      while index <= cursor
        invariant 0 <= index
        invariant |results| <= |res| && res[..|results|] == results
        invariant Output(types, pathMap, 0, cursor) == res[|results|..] + Output(types, pathMap, index, cursor)
        decreases cursor + 1 - index
      {
        if charTypes[index] == CharUseless {
          index := index + 1;
          continue;
        }
        if index in pathMap {
          var path := pathMap[index];
          PathAdvances(index, path);
          ghost var start := index;
          ghost var before := res;
          var j := 0;
          while j < |path|
            invariant 0 <= j <= |path| && res == before + path[..j]
            invariant j == |path| ==> index == End(path[|path| - 1])
          {
            var l := path[j];
            res := res + [l];
            index := l.begin + l.length;
            j := j + 1;
            if j < |path| {
              while index < path[j].begin
                decreases path[j].begin - index
              {
                index := index + 1;
              }
            }
          }
          assert path[..j] == path;
          assert Output(types, pathMap, start, cursor) == path + Output(types, pathMap, index, cursor);
        } else {
          index := index + 1;
        }
      }
    }

    /**
     * The candidates, the paths and the output queue all belong to the pass
     * over the buffer at the current stream offset.
     */
    ghost predicate OnePass()
      reads this
    {
      && (forall i :: 0 <= i < |orgLexemes| ==> orgLexemes[i].offset == buffOffset)
      && (forall k, i :: k in pathMap && 0 <= i < |pathMap[k]| ==> pathMap[k][i].offset == buffOffset)
      && (results == [] || results[0].offset == buffOffset)
    }

    /**
     * outputToResult: the lexemes of the chosen paths, from position 0 to the
     * cursor, join the output queue; the path map is cleared.
     */
    method OutputToResult()
      requires Valid() && OnePass()
      modifies this
      ensures Valid() && OnePass()
      ensures results == old(results) + Output(charTypes[..], old(pathMap), 0, cursor)
      ensures pathMap == map[]
      ensures segmentBuff == old(segmentBuff) && charTypes == old(charTypes)
      ensures buffOffset == old(buffOffset) && cursor == old(cursor) && available == old(available)
      ensures buffLocker == old(buffLocker) && orgLexemes == old(orgLexemes)
    {
      var res := WalkPaths(charTypes, pathMap, cursor, results);
      ghost var out := Output(charTypes[..], pathMap, 0, cursor);
      OutputFromPathsAll(charTypes[..], pathMap, 0, cursor);
      forall i | 0 <= i < |out| ensures InBuffer(out[i], BuffSize) && out[i].offset == buffOffset {
        assert out[i] in out;
        var k :| k in pathMap && 0 <= k <= cursor && out[i] in pathMap[k];
        var j :| 0 <= j < |pathMap[k]| && pathMap[k][j] == out[i];
      }
      assert forall i :: 0 <= i < |results| ==> results[i].offset == buffOffset;
      assert forall i :: 0 <= i < |res| ==> res[i].offset == buffOffset && InBuffer(res[i], BuffSize) by {
        forall i | 0 <= i < |res| ensures res[i].offset == buffOffset && InBuffer(res[i], BuffSize) {
          if i >= |results| {
            assert res[i] == out[i - |results|];
          }
        }
      }
      results := res;
      pathMap := map[];
    }

    /** One turn of getNextLexeme's loop: compound the head, then ask whether it is a stop word. */
    method CompoundAndCheck(dict: Dictionary, head: Lexeme) returns (c: Lexeme, isStop: bool)
      requires Valid() && InBuffer(head, BuffSize)
      requires forall i :: 0 <= i < |results| ==> results[i].offset == head.offset
      modifies this
      ensures Valid() && InBuffer(c, BuffSize)
      ensures (c, results) == Compound(cfg.useSmart, head, old(results)) && |results| <= |old(results)|
      ensures forall i :: 0 <= i < |results| ==> results[i].offset == head.offset
      ensures isStop == Enabled(dict.stopWordDict, segmentBuff[..][c.begin..End(c)])
      ensures segmentBuff == old(segmentBuff) && charTypes == old(charTypes)
      ensures buffOffset == old(buffOffset) && cursor == old(cursor) && available == old(available)
      ensures buffLocker == old(buffLocker) && orgLexemes == old(orgLexemes) && pathMap == old(pathMap)
    {
      CompoundInBuffer(cfg.useSmart, head, results);
      c := CompoundHead(head);
      isStop := dict.IsStopWord(segmentBuff[..], c.begin, c.length);
    }

    /**
     * getNextLexeme: the first queued lexeme, after compounding, that is not a
     * stop word, with its text taken from the buffer; the stop words before it
     * are dropped. null once the queue is empty.
     */
    method GetNextLexeme(dict: Dictionary) returns (r: Option<Lexeme>)
      requires Valid()
      modifies this
      ensures Valid()
      ensures (r, results) == NextLexeme(cfg.useSmart, segmentBuff[..], dict.stopWordDict, old(results))
      ensures segmentBuff == old(segmentBuff) && charTypes == old(charTypes)
      ensures buffOffset == old(buffOffset) && cursor == old(cursor) && available == old(available)
      ensures buffLocker == old(buffLocker) && orgLexemes == old(orgLexemes) && pathMap == old(pathMap)
    {
      ghost var buf := segmentBuff[..];
      ghost var target := NextLexeme(cfg.useSmart, buf, dict.stopWordDict, results);
      var result := PollFirst(results).0;
      results := PollFirst(results).1;
      while result.Some?
        invariant Valid() && segmentBuff[..] == buf
        invariant result.None? ==> results == [] && target == (None, [])
        invariant result.Some? ==>
          && InBuffer(result.value, BuffSize)
          && (forall i :: 0 <= i < |results| ==> results[i].offset == result.value.offset)
          && target == NextLexeme(cfg.useSmart, buf, dict.stopWordDict, [result.value] + results)
        invariant segmentBuff == old(segmentBuff) && charTypes == old(charTypes)
        invariant buffOffset == old(buffOffset) && cursor == old(cursor) && available == old(available)
        invariant buffLocker == old(buffLocker) && orgLexemes == old(orgLexemes) && pathMap == old(pathMap)
        decreases |results|, result.Some?
      {
        var head := result.value;
        NextLexemeUnfold(cfg.useSmart, buf, dict.stopWordDict, head, results);
        var c, isStop := CompoundAndCheck(dict, head);
        if isStop {
          result := PollFirst(results).0;
          results := PollFirst(results).1;
        } else {
          r := Some(c.(text := Some(segmentBuff[c.begin..c.begin + c.length])));
          return;
        }
      }
      r := None;
    }

    /** reset: fresh buffers and every field back to its start value. */
    method Reset()
      modifies this
      ensures Valid() && fresh(segmentBuff) && fresh(charTypes)
      ensures buffOffset == 0 && cursor == 0 && available == 0
      ensures buffLocker == {} && orgLexemes == [] && pathMap == map[] && results == []
    {
      buffLocker := {};
      orgLexemes := [];
      available := 0;
      buffOffset := 0;
      charTypes := new CharType[BuffSize](_ => CharUseless);
      cursor := 0;
      results := [];
      segmentBuff := new char[BuffSize](_ => '\0');
      pathMap := map[];
    }
  }
}
