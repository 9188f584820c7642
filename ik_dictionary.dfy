/**
 * The IK dictionary: the main, stop-word and quantifier tries, the singleton
 * that holds them, the line loaders that fill them from class-path resources,
 * and the one-shot background rebuild of the main trie, modelled as explicit
 * steps (a request, the rebuild's completion, a blocking wait).
 *
 * DictSegment and Hit are not part of this model's sources; they are given the
 * behaviour of IK Analyzer's own classes. A trie is the map from each word
 * filled into it to whether the word is enabled: disabling keeps a filled
 * word's nodes and creates none for a word never filled, and filling or
 * disabling an empty word reads past the end of its char array. A word is a
 * prefix hit when a longer filled word starts with it, and a miss when it is
 * neither a match nor a prefix hit.
 */
module IkDictionary {
  import opened JavaLang

  /** Configuration: the smart-mode switch and the dictionary resource names. */
  class Configuration {
    var useSmart: bool
    const mainDictionary: string
    const quantifierDictionary: string
    const extDictionarys: Option<seq<string>>
    const extStopWordDictionarys: Option<seq<string>>

    constructor (useSmart: bool, mainDictionary: string, quantifierDictionary: string,
                 extDictionarys: Option<seq<string>>, extStopWordDictionarys: Option<seq<string>>)
      ensures this.useSmart == useSmart && this.mainDictionary == mainDictionary
      ensures this.quantifierDictionary == quantifierDictionary
      ensures this.extDictionarys == extDictionarys && this.extStopWordDictionarys == extStopWordDictionarys
    {
      this.useSmart := useSmart;
      this.mainDictionary := mainDictionary;
      this.quantifierDictionary := quantifierDictionary;
      this.extDictionarys := extDictionarys;
      this.extStopWordDictionarys := extStopWordDictionarys;
    }

    /** Configuration.setUseSmart. */
    method SetUseSmart(useSmart: bool)
      modifies this
      ensures this.useSmart == useSmart
    {
      this.useSmart := useSmart;
    }
  }

  /** The class path: each resource that exists, as its lines. */
  type Resources = map<string, seq<string>>

  /** A DictSegment: every word filled into it, enabled or disabled. */
  datatype Trie = Trie(words: map<string, bool>)

  /** new DictSegment((char) 0). */
  const EmptyTrie: Trie := Trie(map[])

  /** Whether w is an enabled word of the trie. */
  predicate Enabled(t: Trie, w: string)
  {
    w in t.words && t.words[w]
  }

  /** DictSegment.fillSegment: the word becomes an enabled entry (an empty word throws, see Blank). */
  function FillSegment(t: Trie, w: string): Trie
    requires w != []
  {
    Trie(t.words[w := true])
  }

  /** DictSegment.disableSegment: a filled word stays in the trie but no longer matches; any other word changes nothing. */
  function DisableSegment(t: Trie, w: string): Trie
    requires w != []
  {
    if w in t.words then Trie(t.words[w := false]) else t
  }

  /** Disabling turns off exactly the word given, and keeps every node, so prefix hits are unchanged. */
  lemma DisableSegmentMeaning(t: Trie, w: string, v: string)
    requires w != []
    ensures Enabled(DisableSegment(t, w), v) <==> Enabled(t, v) && v != w
    ensures DisableSegment(t, w).words.Keys == t.words.Keys
  {
  }

  /** Filling enables exactly the word given besides those enabled before, and adds its node. */
  lemma FillSegmentMeaning(t: Trie, w: string, v: string)
    requires w != []
    ensures Enabled(FillSegment(t, w), v) <==> Enabled(t, v) || v == w
    ensures FillSegment(t, w).words.Keys == t.words.Keys + {w}
  {
  }

  /** The form a word is stored in: trimmed and lower-cased. */
  function Key(w: string): string
  {
    LowerStr(Trim(w))
  }

  /** The state of one trie descent: the span matched, the chars matched and the outcome flags. */
  datatype Hit = Hit(begin: int, end: int, word: string, isMatch: bool, isPrefix: bool, isUnmatch: bool)

  /**
   * DictSegment.match over a word: a match when w is an enabled entry, a
   * prefix hit when some longer filled word (enabled or not) starts with w,
   * and a miss when it is neither.
   */
  function MatchWord(t: Trie, begin: int, end: int, w: string): (h: Hit)
    ensures h.isMatch <==> Enabled(t, w)
    ensures h.isPrefix <==> exists k :: k in t.words && w < k
    ensures h.isUnmatch <==> !Enabled(t, w) && forall k :: k in t.words ==> !(w < k)
    ensures h.begin == begin && h.end == end && h.word == w
  {
    var isMatch := Enabled(t, w);
    var isPrefix := exists k :: k in t.words && w < k;
    Hit(begin, end, w, isMatch, isPrefix, !isMatch && !isPrefix)
  }

  /** DictSegment.match(charArray, begin, length). */
  function Match(t: Trie, chars: seq<char>, begin: int, length: int): Hit
    requires 0 <= begin && 1 <= length && begin + length <= |chars|
  {
    MatchWord(t, begin, begin + length - 1, chars[begin..begin + length])
  }

  /** Dictionary.matchWithHit: one more char, continued from the hit's trie node. */
  function MatchWithHit(t: Trie, chars: seq<char>, currentIndex: int, matchedHit: Hit): Hit
    requires 0 <= currentIndex < |chars|
  {
    MatchWord(t, matchedHit.begin, currentIndex, matchedHit.word + [chars[currentIndex]])
  }

  /** Continuing a hit char by char ends where one match over the whole span does. */
  lemma MatchWithHitExtends(t: Trie, chars: seq<char>, begin: int, length: int)
    requires 0 <= begin && 1 <= length && begin + length < |chars|
    ensures MatchWithHit(t, chars, begin + length, Match(t, chars, begin, length)) == Match(t, chars, begin, length + 1)
  {
    assert chars[begin..begin + length] + [chars[begin + length]] == chars[begin..begin + length + 1];
  }

  /** A word that is a prefix hit is not a miss, and neither is a match. */
  lemma HitFlagsConsistent(t: Trie, begin: int, end: int, w: string)
    ensures var h := MatchWord(t, begin, end, w); (h.isMatch || h.isPrefix) <==> !h.isUnmatch
  {
  }

  /**
   * A disabled word no longer matches but stays a prefix hit whenever it was
   * one; a disabled word that no longer filled word extends is a miss.
   */
  lemma DisabledWordHit(t: Trie, begin: int, end: int, w: string)
    requires w != []
    ensures var h := MatchWord(DisableSegment(t, w), begin, end, w);
      && !h.isMatch
      && h.isPrefix == MatchWord(t, begin, end, w).isPrefix
      && (h.isUnmatch <==> !MatchWord(t, begin, end, w).isPrefix)
  {
    DisableSegmentMeaning(t, w, w);
    var d := DisableSegment(t, w);
    assert d.words.Keys == t.words.Keys;
    assert (exists k :: k in d.words && w < k) <==> (exists k :: k in t.words && w < k) by {
      forall k ensures k in d.words <==> k in t.words {
        assert k in d.words.Keys <==> k in t.words.Keys;
      }
    }
  }

  // ---------------------------------------------------------------------------
  // Loading words
  // ---------------------------------------------------------------------------

  /** The trie after the non-blank lines of one file are filled in, each trimmed and lower-cased. */
  function FillLines(t: Trie, lines: seq<string>): Trie
  {
    if lines == [] then t
    else
      var r := FillLines(t, lines[..|lines| - 1]);
      var line := lines[|lines| - 1];
      if IsBlank(line) then r else KeyNotEmpty(line); FillSegment(r, Key(line))
  }

  /** The stored form of a non-blank line is not empty. */
  lemma KeyNotEmpty(line: string)
    requires !IsBlank(line)
    ensures Key(line) != []
  {
  }

  /** The stored forms of a file's non-blank lines, in line order. */
  function LineWords(lines: seq<string>): (r: seq<string>)
    ensures forall w :: w in r ==> w != []
  {
    if lines == [] then []
    else
      var line := lines[|lines| - 1];
      LineWords(lines[..|lines| - 1]) + (if IsBlank(line) then [] else [Key(line)])
  }

  /** Loading only ever enables words. */
  lemma {:induction false} FillLinesAllEnabled(t: Trie, lines: seq<string>)
    requires forall v :: v in t.words ==> t.words[v]
    ensures forall v :: v in FillLines(t, lines).words ==> FillLines(t, lines).words[v]
  {
    if lines != [] {
      FillLinesAllEnabled(t, lines[..|lines| - 1]);
    }
  }

  /** A word is enabled after loading exactly when a non-blank line gives it or it was enabled before. */
  lemma {:induction false} FillLinesWords(t: Trie, lines: seq<string>, w: string)
    ensures Enabled(FillLines(t, lines), w) <==> Enabled(t, w) || w in LineWords(lines)
  {
    if lines != [] {
      var init := lines[..|lines| - 1];
      var line := lines[|lines| - 1];
      var before := FillLines(t, init);
      FillLinesWords(t, init, w);
      if IsBlank(line) {
        assert FillLines(t, lines) == before;
        assert LineWords(lines) == LineWords(init);
      } else {
        KeyNotEmpty(line);
        assert FillLines(t, lines) == Trie(before.words[Key(line) := true]);
        assert LineWords(lines) == LineWords(init) + [Key(line)];
      }
    }
  }

  /** The trie after every listed file that exists is loaded, in list order; a missing one is skipped. */
  function LoadFiles(t: Trie, names: seq<string>, res: Resources): Trie
  {
    if names == [] then t
    else
      var r := LoadFiles(t, names[..|names| - 1], res);
      var name := names[|names| - 1];
      if name in res then FillLines(r, res[name]) else r
  }

  /** The stored words of every listed file that exists, in list order. */
  function FileWords(names: seq<string>, res: Resources): seq<string>
  {
    if names == [] then []
    else
      var name := names[|names| - 1];
      FileWords(names[..|names| - 1], res) + (if name in res then LineWords(res[name]) else [])
  }

  /**
   * The stop-word or extension words after loading: the enabled words are
   * those of the listed files that exist, besides those enabled before.
   */
  lemma {:induction false} LoadFilesWords(t: Trie, names: seq<string>, res: Resources, w: string)
    ensures Enabled(LoadFiles(t, names, res), w) <==> Enabled(t, w) || w in FileWords(names, res)
  {
    if names != [] {
      var init := names[..|names| - 1];
      var name := names[|names| - 1];
      LoadFilesWords(t, init, res, w);
      if name in res {
        FillLinesWords(LoadFiles(t, init, res), res[name], w);
      }
    }
  }

  /** A file that does not exist adds nothing. */
  lemma MissingFileSkipped(t: Trie, names: seq<string>, name: string, res: Resources)
    requires name !in res
    ensures LoadFiles(t, names + [name], res) == LoadFiles(t, names, res)
    ensures FileWords(names + [name], res) == FileWords(names, res)
  {
    assert (names + [name])[..|names|] == names;
  }

  /** Every char is one trim removes, stated char by char. */
  predicate AllTrimmable(s: string)
  {
    s == [] || (IsTrimmable(s[0]) && AllTrimmable(s[1..]))
  }

  /** The char-by-char statement holds exactly when every char is one trim removes. */
  lemma {:induction false} AllTrimmableChars(s: string)
    ensures AllTrimmable(s) <==> forall i :: 0 <= i < |s| ==> IsTrimmable(s[i])
  {
    if s != [] {
      AllTrimmableChars(s[1..]);
      assert forall i :: 0 <= i < |s| - 1 ==> s[1..][i] == s[i + 1];
    }
  }

  /** A string is blank, and its stored form empty, exactly when trim removes all of its chars. */
  lemma AllTrimmableIsBlank(s: string)
    ensures AllTrimmable(s) <==> IsBlank(s)
    ensures Key(s) == [] <==> IsBlank(s)
  {
    AllTrimmableChars(s);
    BlankIffAllWhite(s);
  }

  /** A non-null element whose stored form is empty: filling or disabling it reads past the end of its chars. */
  predicate Blank(w: Option<string>)
  {
    w.Some? && AllTrimmable(w.value)
  }

  /** The index of the first blank element, or the length when there is none: how far addWords and disableWords get. */
  function FirstBlank(words: seq<Option<string>>): (n: nat)
    ensures n <= |words|
    ensures forall i :: 0 <= i < n ==> !Blank(words[i])
    ensures n < |words| ==> Blank(words[n])
  {
    if words == [] then 0
    else if Blank(words[0]) then 0
    else
      var rest := words[1..];
      var m := FirstBlank(rest);
      assert forall i :: 0 <= i < |rest| ==> rest[i] == words[i + 1];
      m + 1
  }

  /** The words a collection adds, skipping null elements. */
  function AddAll(t: Trie, words: seq<Option<string>>): Trie
    requires forall i :: 0 <= i < |words| ==> !Blank(words[i])
  {
    if words == [] then t
    else
      var init, w := words[..|words| - 1], words[|words| - 1];
      assert !Blank(words[|words| - 1]);
      assert forall i :: 0 <= i < |init| ==> init[i] == words[i];
      var r := AddAll(t, init);
      if w.Some? then AllTrimmableIsBlank(w.value); KeyNotEmpty(w.value); FillSegment(r, Key(w.value)) else r
  }

  /** The words a collection disables, skipping null elements. */
  function DisableAll(t: Trie, words: seq<Option<string>>): Trie
    requires forall i :: 0 <= i < |words| ==> !Blank(words[i])
  {
    if words == [] then t
    else
      var init, w := words[..|words| - 1], words[|words| - 1];
      assert !Blank(words[|words| - 1]);
      assert forall i :: 0 <= i < |init| ==> init[i] == words[i];
      var r := DisableAll(t, init);
      if w.Some? then AllTrimmableIsBlank(w.value); KeyNotEmpty(w.value); DisableSegment(r, Key(w.value)) else r
  }

  /** After addWords every non-null element is an enabled word in its stored form. */
  lemma {:induction false} AddAllEnables(t: Trie, words: seq<Option<string>>, i: int)
    requires forall k :: 0 <= k < |words| ==> !Blank(words[k])
    requires 0 <= i < |words| && words[i].Some?
    ensures Enabled(AddAll(t, words), Key(words[i].value))
  {
    var init := words[..|words| - 1];
    if i < |words| - 1 {
      AddAllEnables(t, init, i);
    }
  }

  /** After disableWords no non-null element's stored form matches. */
  lemma {:induction false} DisableAllDisables(t: Trie, words: seq<Option<string>>, i: int)
    requires forall k :: 0 <= k < |words| ==> !Blank(words[k])
    requires 0 <= i < |words| && words[i].Some?
    ensures !Enabled(DisableAll(t, words), Key(words[i].value))
  {
    var init := words[..|words| - 1];
    if i < |words| - 1 {
      DisableAllDisables(t, init, i);
    }
  }

  /** disableWords never adds a word: the filled words, and so the prefix hits, stay as they were. */
  lemma {:induction false} DisableAllKeepsWords(t: Trie, words: seq<Option<string>>)
    requires forall k :: 0 <= k < |words| ==> !Blank(words[k])
    ensures DisableAll(t, words).words.Keys == t.words.Keys
  {
    if words != [] {
      DisableAllKeepsWords(t, words[..|words| - 1]);
    }
  }

  // ---------------------------------------------------------------------------
  // The dictionary
  // ---------------------------------------------------------------------------

  /** The future of the rebuild task: not yet submitted, running, or done. */
  datatype Future = NotSubmitted | Running | Done

  /** What the rebuild task gives: a trie, possibly null, or a failure. */
  datatype Outcome = Built(ds: Option<Trie>) | Failed

  class Dictionary {
    var mainDict: Trie
    var stopWordDict: Trie
    var quantifierDict: Trie
    /** The loaded flag: set when the rebuild task completes. */
    var loaded: bool
    /** The rebuild task's future f. */
    var future: Future
    /** How many rebuild tasks were submitted. */
    ghost var submissions: nat
    const cfg: Configuration

    /** The refresh state machine: at most one submission, and loaded exactly once the rebuild is done. */
    ghost predicate Valid()
      reads this
    {
      && submissions <= 1
      && (future == NotSubmitted <==> submissions == 0)
      && (future == Done <==> loaded)
    }

    /** The private constructor: empty main and quantifier tries, and only the stop words loaded. */
    constructor (cfg: Configuration, res: Resources)
      ensures Valid() && !loaded && future == NotSubmitted && this.cfg == cfg
      ensures mainDict == EmptyTrie && quantifierDict == EmptyTrie
      ensures stopWordDict == LoadFiles(EmptyTrie, if cfg.extStopWordDictionarys.Some? then cfg.extStopWordDictionarys.value else [], res)
    {
      this.cfg := cfg;
      mainDict := EmptyTrie;
      stopWordDict := EmptyTrie;
      quantifierDict := EmptyTrie;
      loaded := false;
      future := NotSubmitted;
      submissions := 0;
      new;
      LoadStopWordDict(res);
    }

    /** addWords: each non-null word, trimmed and lower-cased, into the main trie; null is ignored. */
    method AddWords(words: Option<seq<Option<string>>>) returns (r: Result<()>)
      modifies this
      ensures words.None? ==> mainDict == old(mainDict) && r == Ok(())
      ensures words.Some? ==>
        var n := FirstBlank(words.value);
        && mainDict == AddAll(old(mainDict), words.value[..n])
        && r == (if n < |words.value| then Throws(ArrayIndexOutOfBoundsException) else Ok(()))
      ensures stopWordDict == old(stopWordDict) && quantifierDict == old(quantifierDict)
      ensures loaded == old(loaded) && future == old(future) && submissions == old(submissions)
    {
      r := Ok(());
      if words.Some? {
        var ws := words.value;
        ghost var n := FirstBlank(ws);
        var i := 0;
        while i < |ws|
          invariant 0 <= i <= n && mainDict == AddAll(old(mainDict), ws[..i])
          invariant stopWordDict == old(stopWordDict) && quantifierDict == old(quantifierDict)
          invariant loaded == old(loaded) && future == old(future) && submissions == old(submissions)
        {
          assert ws[..i + 1][..i] == ws[..i];
          if ws[i].Some? {
            var w := Key(ws[i].value);
            AllTrimmableIsBlank(ws[i].value);
            if w == [] {
              // the segment reads the first char of an empty array
              assert Blank(ws[i]) && i == n;
              return Throws(ArrayIndexOutOfBoundsException);
            }
            mainDict := FillSegment(mainDict, w);
          }
          i := i + 1;
        }
        assert ws[..i] == ws && i == n;
      }
    }

    /** disableWords: each non-null word, trimmed and lower-cased, disabled in the main trie; null is ignored. */
    method DisableWords(words: Option<seq<Option<string>>>) returns (r: Result<()>)
      modifies this
      ensures words.None? ==> mainDict == old(mainDict) && r == Ok(())
      ensures words.Some? ==>
        var n := FirstBlank(words.value);
        && mainDict == DisableAll(old(mainDict), words.value[..n])
        && r == (if n < |words.value| then Throws(ArrayIndexOutOfBoundsException) else Ok(()))
      ensures stopWordDict == old(stopWordDict) && quantifierDict == old(quantifierDict)
      ensures loaded == old(loaded) && future == old(future) && submissions == old(submissions)
    {
      r := Ok(());
      if words.Some? {
        var ws := words.value;
        ghost var n := FirstBlank(ws);
        var i := 0;
        while i < |ws|
          invariant 0 <= i <= n && mainDict == DisableAll(old(mainDict), ws[..i])
          invariant stopWordDict == old(stopWordDict) && quantifierDict == old(quantifierDict)
          invariant loaded == old(loaded) && future == old(future) && submissions == old(submissions)
        {
          assert ws[..i + 1][..i] == ws[..i];
          if ws[i].Some? {
            var w := Key(ws[i].value);
            AllTrimmableIsBlank(ws[i].value);
            if w == [] {
              // the segment reads the first char of an empty array
              assert Blank(ws[i]) && i == n;
              return Throws(ArrayIndexOutOfBoundsException);
            }
            mainDict := DisableSegment(mainDict, w);
          }
          i := i + 1;
        }
        assert ws[..i] == ws && i == n;
      }
    }

    /** isStopWord: the span is an enabled word of the stop-word trie. */
    predicate IsStopWord(chars: seq<char>, begin: int, length: int)
      requires 0 <= begin && 1 <= length && begin + length <= |chars|
      reads this
    {
      Match(stopWordDict, chars, begin, length).isMatch
    }

    /** matchInMainDict over a whole char array. */
    function MatchInMainDict(chars: seq<char>): Hit
      requires |chars| >= 1
      reads this
    {
      Match(mainDict, chars, 0, |chars|)
    }

    /** matchInMainDict over a span. */
    function MatchInMainDictSpan(chars: seq<char>, begin: int, length: int): Hit
      requires 0 <= begin && 1 <= length && begin + length <= |chars|
      reads this
    {
      Match(mainDict, chars, begin, length)
    }

    /** matchInQuantifierDict over a span. */
    function MatchInQuantifierDict(chars: seq<char>, begin: int, length: int): Hit
      requires 0 <= begin && 1 <= length && begin + length <= |chars|
      reads this
    {
      Match(quantifierDict, chars, begin, length)
    }

    /**
     * refreshDictSegment: nothing once loaded; otherwise the rebuild task is
     * submitted if it never was, and with needBlock the caller waits for it
     * (outcome is what the rebuild gives) and installs a non-null trie.
     */
    method RefreshDictSegment(needBlock: bool, outcome: Outcome)
      requires Valid()
      modifies this
      ensures Valid()
      ensures old(loaded) ==> mainDict == old(mainDict) && loaded && future == old(future)
      ensures !old(loaded) ==> submissions == 1 && future != NotSubmitted
      ensures !old(loaded) && !needBlock ==> mainDict == old(mainDict) && !loaded && future == Running
      ensures !old(loaded) && needBlock ==>
        && loaded && future == Done
        && mainDict == (if outcome.Built? && outcome.ds.Some? then outcome.ds.value else old(mainDict))
      ensures stopWordDict == old(stopWordDict) && quantifierDict == old(quantifierDict)
    {
      if loaded {
        return;
      }
      if future == NotSubmitted {
        future := Running;
        submissions := submissions + 1;
      }
      if needBlock && !loaded {
        if future == Running {
          CompleteTask(outcome);
          if outcome.Built? && outcome.ds.Some? {
            mainDict := outcome.ds.value;
          }
        }
      }
    }

    /** The rebuild job's done(): a non-null trie replaces the main trie; loaded is set whatever the outcome. */
    method CompleteTask(outcome: Outcome)
      requires Valid() && future == Running
      modifies this
      ensures Valid() && loaded && future == Done && submissions == old(submissions)
      ensures mainDict == (if outcome.Built? && outcome.ds.Some? then outcome.ds.value else old(mainDict))
      ensures stopWordDict == old(stopWordDict) && quantifierDict == old(quantifierDict)
    {
      future := Done;
      if outcome.Built? && outcome.ds.Some? {
        mainDict := outcome.ds.value;
      }
      loaded := true;
    }

    /** The line loop every loader runs over one file: each non-blank line, trimmed and lower-cased, is filled in. */
    static method ReadWords(t: Trie, lines: seq<string>) returns (r: Trie)
      ensures r == FillLines(t, lines)
    {
      r := t;
      var k := 0;
      while k < |lines|
        invariant 0 <= k <= |lines| && r == FillLines(t, lines[..k])
      {
        assert lines[..k + 1][..k] == lines[..k];
        var theWord := lines[k];
        if !IsBlank(theWord) {
          KeyNotEmpty(theWord);
          r := FillSegment(r, Key(theWord));
        }
        k := k + 1;
      }
      assert lines[..k] == lines;
    }

    /** The loop over a list of files, skipping each that does not exist. */
    static method ReadFiles(t: Trie, names: seq<string>, res: Resources) returns (r: Trie)
      ensures r == LoadFiles(t, names, res)
    {
      r := t;
      var i := 0;
      while i < |names|
        invariant 0 <= i <= |names| && r == LoadFiles(t, names[..i], res)
      {
        assert names[..i + 1][..i] == names[..i];
        if names[i] in res {
          r := ReadWords(r, res[names[i]]);
        }
        i := i + 1;
      }
      assert names[..i] == names;
    }

    /** loadExtDict: the extension files that exist, into the main trie. */
    method LoadExtDict(res: Resources)
      modifies this
      ensures mainDict == LoadFiles(old(mainDict), if cfg.extDictionarys.Some? then cfg.extDictionarys.value else [], res)
      ensures stopWordDict == old(stopWordDict) && quantifierDict == old(quantifierDict)
      ensures loaded == old(loaded) && future == old(future) && submissions == old(submissions)
    {
      if cfg.extDictionarys.Some? {
        mainDict := ReadFiles(mainDict, cfg.extDictionarys.value, res);
      }
    }

    /** loadMainDict: a fresh main trie from the main file, then the extensions; a missing main file throws. */
    method LoadMainDict(res: Resources) returns (r: Result<()>)
      modifies this
      ensures cfg.mainDictionary !in res ==> r == Throws(RuntimeException) && mainDict == EmptyTrie
      ensures cfg.mainDictionary in res ==>
        && r == Ok(())
        && mainDict == LoadFiles(FillLines(EmptyTrie, res[cfg.mainDictionary]),
                                 if cfg.extDictionarys.Some? then cfg.extDictionarys.value else [], res)
      ensures stopWordDict == old(stopWordDict) && quantifierDict == old(quantifierDict)
      ensures loaded == old(loaded) && future == old(future) && submissions == old(submissions)
    {
      mainDict := EmptyTrie;
      if cfg.mainDictionary !in res {
        return Throws(RuntimeException);
      }
      mainDict := ReadWords(mainDict, res[cfg.mainDictionary]);
      LoadExtDict(res);
      r := Ok(());
    }

    /** loadQuantifierDict: a fresh quantifier trie from its file; a missing file throws. */
    method LoadQuantifierDict(res: Resources) returns (r: Result<()>)
      modifies this
      ensures cfg.quantifierDictionary !in res ==> r == Throws(RuntimeException) && quantifierDict == EmptyTrie
      ensures cfg.quantifierDictionary in res ==>
        && r == Ok(())
        && quantifierDict == FillLines(EmptyTrie, res[cfg.quantifierDictionary])
      ensures stopWordDict == old(stopWordDict) && mainDict == old(mainDict)
      ensures loaded == old(loaded) && future == old(future) && submissions == old(submissions)
    {
      quantifierDict := EmptyTrie;
      if cfg.quantifierDictionary !in res {
        return Throws(RuntimeException);
      }
      quantifierDict := ReadWords(quantifierDict, res[cfg.quantifierDictionary]);
      r := Ok(());
    }

    /** loadStopWordDict: a fresh stop-word trie from the extension stop-word files that exist. */
    method LoadStopWordDict(res: Resources)
      modifies this
      ensures stopWordDict == LoadFiles(EmptyTrie, if cfg.extStopWordDictionarys.Some? then cfg.extStopWordDictionarys.value else [], res)
      ensures mainDict == old(mainDict) && quantifierDict == old(quantifierDict)
      ensures loaded == old(loaded) && future == old(future) && submissions == old(submissions)
    {
      stopWordDict := EmptyTrie;
      if cfg.extStopWordDictionarys.Some? {
        stopWordDict := ReadFiles(stopWordDict, cfg.extStopWordDictionarys.value, res);
      }
    }
  }

  /** The holder of Dictionary's static singleton field. */
  class DictionaryHolder {
    var singleton: Dictionary?

    constructor ()
      ensures singleton == null
    {
      singleton := null;
    }

    /** initial: the first call builds the dictionary from its configuration; later calls return it and ignore theirs. */
    method Initial(cfg: Configuration, res: Resources) returns (d: Dictionary)
      modifies this
      ensures old(singleton) != null ==> d == old(singleton) && singleton == old(singleton)
      ensures old(singleton) == null ==> fresh(d) && singleton == d && d.cfg == cfg && d.Valid() && !d.loaded
    {
      if singleton == null {
        d := new Dictionary(cfg, res);
        singleton := d;
        return;
      }
      d := singleton;
    }

    /** getSingleton: the dictionary, or IllegalStateException before initial. */
    function GetSingleton(): (r: Result<Dictionary>)
      reads this
      ensures singleton == null <==> r == Throws(IllegalStateException)
      ensures singleton != null ==> r.Ok? && r.value == singleton
    {
      if singleton == null then Throws(IllegalStateException) else Ok(singleton as Dictionary)
    }
  }
}
