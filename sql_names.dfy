/**
 * The two name converters of AbstractSQLProvider: underscoreName turns a Java
 * camelCase name into a lower-case column or table name with '_' before every
 * former capital; camelCaseName turns an underscored name back into camelCase.
 * Case mapping is ASCII only.
 */
module SqlNames {
  import opened JavaLang

  // ---------------------------------------------------------------------------
  // underscoreName
  // ---------------------------------------------------------------------------

  /** What underscoreName writes for a char after the first one. */
  function UnderscoreChar(c: char): string
  {
    if IsUpper(c) then ['_', ToLower(c)] else [c]
  }

  function UnderscoreTail(s: string): string
  {
    if s == [] then "" else UnderscoreChar(s[0]) + UnderscoreTail(s[1..])
  }

  /** underscoreName of a non-null name: the first char lower-cased, then every later char mapped. */
  function Underscore(name: string): string
  {
    if name == [] then "" else [ToLower(name[0])] + UnderscoreTail(name[1..])
  }

  lemma {:induction false} UnderscoreTailSnoc(s: string, c: char)
    ensures UnderscoreTail(s + [c]) == UnderscoreTail(s) + UnderscoreChar(c)
  {
    if s == [] {
      assert s + [c] == [c];
    } else {
      assert (s + [c])[1..] == s[1..] + [c];
      UnderscoreTailSnoc(s[1..], c);
    }
  }

  /** AbstractSQLProvider.underscoreName; null and "" give "". */
  method UnderscoreName(name: Option<string>) returns (r: string)
    ensures name.None? ==> r == ""
    ensures name.Some? ==> r == Underscore(name.value)
  {
    if name.None? || |name.value| == 0 {
      return "";
    }
    var s := name.value;
    r := [ToLower(s[0])];
    var i := 1;
    while i < |s|
      invariant 1 <= i <= |s|
      invariant r == [ToLower(s[0])] + UnderscoreTail(s[1..i])
    {
      var c := s[i];
      var lc := ToLower(c);
      if c != lc {
        r := r + ['_'] + [lc];
      } else {
        r := r + [c];
      }
      UnderscoreTailSnoc(s[1..i], c);
      assert s[1..i + 1] == s[1..i] + [c];
      i := i + 1;
    }
    assert s[1..i] == s[1..];
  }

  /** The number of upper-case chars in s. */
  function CountUpper(s: string): nat
  {
    if s == [] then 0 else (if IsUpper(s[0]) then 1 else 0) + CountUpper(s[1..])
  }

  predicate NoUpper(s: string) { forall i :: 0 <= i < |s| ==> !IsUpper(s[i]) }

  lemma {:induction false} UnderscoreTailFacts(s: string)
    ensures |UnderscoreTail(s)| == |s| + CountUpper(s)
    ensures NoUpper(UnderscoreTail(s))
    ensures NoUpper(s) ==> UnderscoreTail(s) == s
  {
    if s != [] {
      UnderscoreTailFacts(s[1..]);
      var t := UnderscoreTail(s);
      assert t == UnderscoreChar(s[0]) + UnderscoreTail(s[1..]);
    }
  }

  /** One '_' is inserted per capital after the first char. */
  lemma UnderscoreLength(name: string)
    requires name != []
    ensures |Underscore(name)| == |name| + CountUpper(name[1..])
  {
    UnderscoreTailFacts(name[1..]);
  }

  /** underscoreName leaves no capital behind. */
  lemma UnderscoreHasNoUpper(name: string)
    ensures NoUpper(Underscore(name))
  {
    if name != [] {
      UnderscoreTailFacts(name[1..]);
    }
  }

  /** A name without capitals is already its own underscored form. */
  lemma UnderscoreFixesLowerNames(name: string)
    requires NoUpper(name)
    ensures Underscore(name) == name
  {
    if name != [] {
      UnderscoreTailFacts(name[1..]);
    }
  }

  /** underscoreName is idempotent. */
  lemma UnderscoreIdempotent(name: string)
    ensures Underscore(Underscore(name)) == Underscore(name)
  {
    UnderscoreHasNoUpper(name);
    UnderscoreFixesLowerNames(Underscore(name));
  }

  // ---------------------------------------------------------------------------
  // String.split with a one-char separator
  // ---------------------------------------------------------------------------

  /** Every piece between separators, the empty ones included. */
  function SplitAll(s: string, sep: char): (r: seq<string>)
    ensures |r| >= 1
  {
    if s == [] then [""]
    else
      var rest := SplitAll(s[1..], sep);
      if s[0] == sep then [""] + rest else [[s[0]] + rest[0]] + rest[1..]
  }

  function DropTrailingEmpty(parts: seq<string>): (r: seq<string>)
    ensures |r| <= |parts| && r == parts[..|r|]
    ensures r == [] || r[|r| - 1] != ""
  {
    if parts == [] then []
    else if parts[|parts| - 1] == "" then DropTrailingEmpty(parts[..|parts| - 1])
    else parts
  }

  /** String.split(sep): no separator gives the string itself; otherwise trailing empty strings are removed. */
  function JavaSplit(s: string, sep: char): seq<string>
  {
    if Lacks(s, sep) then [s] else DropTrailingEmpty(SplitAll(s, sep))
  }

  lemma {:induction false} SplitAllNoSep(s: string, sep: char)
    requires Lacks(s, sep)
    ensures SplitAll(s, sep) == [s]
  {
    if s != [] {
      SplitAllNoSep(s[1..], sep);
      assert [s[0]] + s[1..] == s;
    }
  }

  lemma {:induction false} SplitAllAt(a: string, b: string, sep: char)
    requires Lacks(a, sep)
    ensures SplitAll(a + [sep] + b, sep) == [a] + SplitAll(b, sep)
  {
    if a == [] {
      assert a + [sep] + b == [sep] + b;
      assert ([sep] + b)[1..] == b;
    } else {
      assert (a + [sep] + b)[1..] == a[1..] + [sep] + b;
      SplitAllAt(a[1..], b, sep);
      assert [a[0]] + a[1..] == a;
    }
  }

  // ---------------------------------------------------------------------------
  // camelCaseName
  // ---------------------------------------------------------------------------

  /** What camelCaseName writes for a later segment: capital first char, the rest lower-cased. */
  function Capitalized(nm: string): string
    requires nm != []
  {
    UpperStr(nm[..1]) + LowerStr(nm[1..])
  }

  function CapitalizeAll(nms: seq<string>): string
    requires forall i :: 0 <= i < |nms| ==> nms[i] != []
  {
    if nms == [] then "" else Capitalized(nms[0]) + CapitalizeAll(nms[1..])
  }

  /** What camelCaseName writes for the first segment. */
  function FirstSegment(nm: string, firstUpperCase: bool): string
    requires nm != []
  {
    (if firstUpperCase then UpperStr(nm[..1]) else LowerStr(nm[..1])) + LowerStr(nm[1..])
  }

  /** The first segment of the split that is empty, if any (its substring(0, 1) throws). */
  predicate HasEmptySegment(nms: seq<string>)
  {
    exists i :: 0 <= i < |nms| && nms[i] == []
  }

  /**
   * camelCaseName: null or "" give ""; a split with no segment (only '_') or
   * with an empty segment throws; otherwise the first segment is cased per
   * firstUpperCase and every later segment is capitalised.
   */
  function CamelCase(name: Option<string>, firstUpperCase: bool): Result<string>
  {
    if name.None? || name.value == [] then Ok("")
    else
      var nms := JavaSplit(name.value, '_');
      if nms == [] then Throws(ArrayIndexOutOfBoundsException)
      else if HasEmptySegment(nms) then Throws(StringIndexOutOfBoundsException)
      else Ok(FirstSegment(nms[0], firstUpperCase) + CapitalizeAll(nms[1..]))
  }

  lemma {:induction false} CapitalizeAllSnoc(nms: seq<string>, nm: string)
    requires forall i :: 0 <= i < |nms| ==> nms[i] != []
    requires nm != []
    ensures CapitalizeAll(nms + [nm]) == CapitalizeAll(nms) + Capitalized(nm)
  {
    if nms == [] {
      assert nms + [nm] == [nm];
    } else {
      assert (nms + [nm])[1..] == nms[1..] + [nm];
      CapitalizeAllSnoc(nms[1..], nm);
    }
  }

  /** AbstractSQLProvider.camelCaseName, segment by segment. */
  method CamelCaseName(name: Option<string>, firstUpperCase: bool) returns (r: Result<string>)
    ensures r == CamelCase(name, firstUpperCase)
  {
    if name.None? || |name.value| == 0 {
      return Ok("");
    }
    var nms := JavaSplit(name.value, '_');
    if |nms| == 0 {
      return Throws(ArrayIndexOutOfBoundsException);
    }
    if |nms[0]| == 0 {
      return Throws(StringIndexOutOfBoundsException);
    }
    var result := FirstSegment(nms[0], firstUpperCase);
    var i := 1;
    while i < |nms|
      invariant 1 <= i <= |nms|
      invariant forall j :: 0 <= j < i ==> nms[j] != []
      invariant result == FirstSegment(nms[0], firstUpperCase) + CapitalizeAll(nms[1..i])
    {
      var nm := nms[i];
      if |nm| == 0 {
        return Throws(StringIndexOutOfBoundsException);
      }
      result := result + UpperStr(nm[..1]) + LowerStr(nm[1..]);
      CapitalizeAllSnoc(nms[1..i], nm);
      assert nms[1..i + 1] == nms[1..i] + [nm];
      i := i + 1;
    }
    assert nms[1..i] == nms[1..];
    return Ok(result);
  }

  /** A name made only of '_' splits into nothing, and camelCaseName throws. */
  lemma CamelCaseOfUnderscoresThrows()
    ensures CamelCase(Some("__"), false) == Throws(ArrayIndexOutOfBoundsException)
  {
    assert "__"[0] == '_';
    assert !Lacks("__", '_');
    assert "__"[1..] == "_";
    assert "_"[1..] == "";
    assert SplitAll("", '_') == [""];
    assert SplitAll("_", '_') == ["", ""];
    assert SplitAll("__", '_') == ["", "", ""];
  }

  /** A leading '_' leaves an empty first segment, and camelCaseName throws. */
  lemma CamelCaseOfLeadingUnderscoreThrows()
    ensures CamelCase(Some("_a"), false) == Throws(StringIndexOutOfBoundsException)
  {
    assert "_a"[0] == '_';
    assert !Lacks("_a", '_');
    assert "_a"[1..] == "a";
    assert "a"[1..] == "";
    SplitAllNoSep("a", '_');
    assert SplitAll("_a", '_') == ["", "a"];
    assert JavaSplit("_a", '_') == ["", "a"];
  }

  // ---------------------------------------------------------------------------
  // Round trip: camelCaseName(underscoreName(s), false) == s
  // ---------------------------------------------------------------------------

  /** The index of the first capital in s at or after from, or |s|. */
  function NextUpper(s: string, from: nat): (j: nat)
    requires from <= |s|
    ensures from <= j <= |s|
    ensures j < |s| ==> IsUpper(s[j])
    ensures forall k :: from <= k < j ==> !IsUpper(s[k])
    decreases |s| - from
  {
    if from == |s| || IsUpper(s[from]) then from else NextUpper(s, from + 1)
  }

  lemma {:induction false} UnderscoreTailAppend(a: string, b: string)
    ensures UnderscoreTail(a + b) == UnderscoreTail(a) + UnderscoreTail(b)
  {
    if a == [] {
      assert a + b == b;
    } else {
      assert (a + b)[1..] == a[1..] + b;
      UnderscoreTailAppend(a[1..], b);
    }
  }

  lemma UnderscoreTailAtCapital(w: string)
    requires w != [] && IsUpper(w[0])
    ensures UnderscoreTail(w) == ['_'] + Underscore(w)
  {
  }

  /** Underscoring v keeps v[1..j] as it is when that part has no capital. */
  lemma UnderscoreSplit(v: string, j: nat)
    requires v != [] && 1 <= j <= |v| && NoUpper(v[1..j])
    ensures Underscore(v) == ([ToLower(v[0])] + v[1..j]) + UnderscoreTail(v[j..])
  {
    var x, a, b := [ToLower(v[0])], v[1..j], v[j..];
    assert v[1..] == a + b;
    UnderscoreTailAppend(a, b);
    UnderscoreTailFacts(a);
    assert Underscore(v) == x + (a + UnderscoreTail(b));
    assert x + (a + UnderscoreTail(b)) == (x + a) + UnderscoreTail(b);
  }

  /**
   * Underscoring v cuts it at its next capital j: the part before is kept, and
   * the rest (from the capital on) is "_" plus its own underscored form.
   */
  lemma UnderscoreCut(v: string, j: nat)
    requires v != [] && 1 <= j <= |v| && NoUpper(v[1..j])
    requires j < |v| ==> IsUpper(v[j])
    ensures j < |v| ==> Underscore(v) == ([ToLower(v[0])] + v[1..j]) + ['_'] + Underscore(v[j..])
    ensures j == |v| ==> Underscore(v) == [ToLower(v[0])] + v[1..]
  {
    UnderscoreSplit(v, j);
    var head := [ToLower(v[0])] + v[1..j];
    if j < |v| {
      UnderscoreTailAtCapital(v[j..]);
      assert head + (['_'] + Underscore(v[j..])) == head + ['_'] + Underscore(v[j..]);
    } else {
      assert v[j..] == [] && v[1..j] == v[1..];
      assert head + UnderscoreTail([]) == head;
    }
  }

  lemma LowerStrOfNoUpper(s: string)
    requires NoUpper(s)
    ensures LowerStr(s) == s
  {
  }

  /** The segment before the next capital, written back by camelCaseName's segment rule. */
  lemma CapitalizedSegment(v: string, j: nat)
    requires v != [] && IsUpper(v[0]) && 1 <= j <= |v| && NoUpper(v[1..j])
    ensures Capitalized([ToLower(v[0])] + v[1..j]) == v[..j]
  {
    var head := [ToLower(v[0])] + v[1..j];
    assert head[..1] == [ToLower(v[0])];
    assert UpperStr(head[..1]) == [v[0]];
    assert head[1..] == v[1..j];
    LowerStrOfNoUpper(v[1..j]);
    assert v[..j] == [v[0]] + v[1..j];
  }

  lemma LacksHead(v: string, j: nat)
    requires v != [] && 1 <= j <= |v| && Lacks(v, '_')
    ensures Lacks([ToLower(v[0])] + v[1..j], '_')
  {
    var head := [ToLower(v[0])] + v[1..j];
    forall i | 0 <= i < |head|
      ensures head[i] != '_'
    {
      if i > 0 {
        assert head[i] == v[i];
      }
    }
  }

  /** The pieces of u between '_' are all non-empty and capitalise to v. */
  predicate CapitalizesTo(u: string, v: string)
  {
    var segs := SplitAll(u, '_');
    (forall i :: 0 <= i < |segs| ==> segs[i] != []) && CapitalizeAll(segs) == v
  }

  /** v with no later capital is one piece, capitalised back to v. */
  lemma CapitalizeLastPiece(v: string)
    requires v != [] && IsUpper(v[0]) && Lacks(v, '_') && NoUpper(v[1..])
    ensures CapitalizesTo(Underscore(v), v)
  {
    var j := |v|;
    assert v[1..j] == v[1..];
    UnderscoreCut(v, j);
    var head := [ToLower(v[0])] + v[1..j];
    LacksHead(v, j);
    CapitalizedSegment(v, j);
    SplitAllNoSep(head, '_');
    assert v[..j] == v;
    assert CapitalizeAll([head]) == Capitalized(head) + CapitalizeAll([]);
  }

  /** If the part of v from its next capital j capitalises back, so does v. */
  lemma CapitalizeNextPiece(v: string, j: nat)
    requires v != [] && IsUpper(v[0]) && Lacks(v, '_')
    requires 1 <= j < |v| && NoUpper(v[1..j]) && IsUpper(v[j])
    requires CapitalizesTo(Underscore(v[j..]), v[j..])
    ensures CapitalizesTo(Underscore(v), v)
  {
    UnderscoreCut(v, j);
    var head := [ToLower(v[0])] + v[1..j];
    var rest := v[j..];
    LacksHead(v, j);
    CapitalizedSegment(v, j);
    SplitAllAt(head, Underscore(rest), '_');
    var segs := SplitAll(Underscore(v), '_');
    var tail := SplitAll(Underscore(rest), '_');
    assert segs == [head] + tail;
    assert segs[1..] == tail;
    assert CapitalizeAll(segs) == Capitalized(head) + CapitalizeAll(tail);
    SliceJoin(v, j);
  }

  /** The pieces of Underscore(v) between '_' capitalise back to v, when v starts with a capital. */
  lemma {:induction false} CapitalizeUnderscored(v: string)
    requires v != [] && IsUpper(v[0]) && Lacks(v, '_')
    ensures CapitalizesTo(Underscore(v), v)
    decreases |v|
  {
    var j := NextUpper(v, 1);
    assert NoUpper(v[1..j]);
    if j < |v| {
      assert Lacks(v[j..], '_');
      CapitalizeUnderscored(v[j..]);
      CapitalizeNextPiece(v, j);
    } else {
      CapitalizeLastPiece(v);
    }
  }

  lemma DropTrailingEmptyKeeps(parts: seq<string>)
    requires parts != [] && parts[|parts| - 1] != []
    ensures DropTrailingEmpty(parts) == parts
  {
  }

  lemma CamelCaseOfSegments(u: string, segs: seq<string>, firstUpperCase: bool)
    requires u != [] && JavaSplit(u, '_') == segs && segs != []
    requires forall i :: 0 <= i < |segs| ==> segs[i] != []
    ensures CamelCase(Some(u), firstUpperCase) == Ok(FirstSegment(segs[0], firstUpperCase) + CapitalizeAll(segs[1..]))
  {
  }

  /** The first segment of s (up to its next capital) is written back unchanged. */
  lemma FirstSegmentOfHead(s: string, j: nat)
    requires s != [] && !IsUpper(s[0]) && 1 <= j <= |s| && NoUpper(s[1..j])
    ensures FirstSegment([ToLower(s[0])] + s[1..j], false) == s[..j]
  {
    var head := [ToLower(s[0])] + s[1..j];
    assert head[..1] == [s[0]];
    assert LowerStr([s[0]]) == [s[0]];
    assert head[1..] == s[1..j];
    LowerStrOfNoUpper(s[1..j]);
    assert s[..j] == [s[0]] + s[1..j];
  }

  lemma RoundTripWithoutCapital(s: string)
    requires s != [] && !IsUpper(s[0]) && Lacks(s, '_') && NoUpper(s[1..])
    ensures CamelCase(Some(Underscore(s)), false) == Ok(s)
  {
    var j := |s|;
    UnderscoreCut(s, j);
    var head := [ToLower(s[0])] + s[1..j];
    LacksHead(s, j);
    FirstSegmentOfHead(s, j);
    assert s[..j] == s;
    var u := Underscore(s);
    assert u == head;
    assert JavaSplit(head, '_') == [head];
    CamelCaseOfSegments(head, [head], false);
    assert [head][1..] == [];
    assert CapitalizeAll([head][1..]) == "";
    assert CamelCase(Some(u), false) == Ok(s[..j] + "");
    assert s[..j] + "" == s;
  }

  /** A '_' after a head without '_' makes the head the first piece of String.split. */
  lemma JavaSplitAfterHead(head: string, w: string, v: string)
    requires head != [] && Lacks(head, '_') && CapitalizesTo(w, v)
    ensures var segs := [head] + SplitAll(w, '_');
      JavaSplit(head + ['_'] + w, '_') == segs && forall i :: 0 <= i < |segs| ==> segs[i] != []
  {
    var u := head + ['_'] + w;
    SplitAllAt(head, w, '_');
    assert u[|head|] == '_';
    var segs := SplitAll(u, '_');
    var tail := SplitAll(w, '_');
    assert segs == [head] + tail;
    assert segs[|segs| - 1] != [];
    DropTrailingEmptyKeeps(segs);
  }

  /** camelCaseName of head, '_', then pieces that capitalise to v. */
  lemma CamelCaseJoin(head: string, w: string, v: string)
    requires head != [] && Lacks(head, '_') && CapitalizesTo(w, v)
    ensures CamelCase(Some(head + ['_'] + w), false) == Ok(FirstSegment(head, false) + v)
  {
    var tail := SplitAll(w, '_');
    JavaSplitAfterHead(head, w, v);
    var segs := [head] + tail;
    CamelCaseOfSegments(head + ['_'] + w, segs, false);
    assert segs[1..] == tail;
  }

  /** What underscoring s writes before its first later capital j. */
  lemma HeadBeforeCapital(s: string, j: nat)
    requires s != [] && !IsUpper(s[0]) && Lacks(s, '_') && 1 <= j < |s| && NoUpper(s[1..j]) && IsUpper(s[j])
    ensures var head := [ToLower(s[0])] + s[1..j];
      Underscore(s) == head + ['_'] + Underscore(s[j..]) && Lacks(head, '_') && FirstSegment(head, false) == s[..j]
  {
    UnderscoreCut(s, j);
    LacksHead(s, j);
    FirstSegmentOfHead(s, j);
  }

  /** The part of s from a capital on capitalises back from its underscored form. */
  lemma RestFromCapital(s: string, j: nat)
    requires Lacks(s, '_') && j < |s| && IsUpper(s[j])
    ensures CapitalizesTo(Underscore(s[j..]), s[j..])
  {
    assert Lacks(s[j..], '_');
    CapitalizeUnderscored(s[j..]);
  }

  lemma RoundTripWithCapital(s: string, j: nat)
    requires s != [] && !IsUpper(s[0]) && Lacks(s, '_') && j == NextUpper(s, 1) && j < |s|
    ensures CamelCase(Some(Underscore(s)), false) == Ok(s)
  {
    assert NoUpper(s[1..j]);
    var head := [ToLower(s[0])] + s[1..j];
    var rest := s[j..];
    HeadBeforeCapital(s, j);
    RestFromCapital(s, j);
    CamelCaseJoin(head, Underscore(rest), rest);
    SliceJoin(s, j);
  }

  /**
   * For a name whose first char is not a capital and that holds no '_',
   * camelCaseName(underscoreName(s), false) gives s back.
   */
  lemma CamelUnderscoreRoundTrip(s: string)
    requires s != [] && !IsUpper(s[0]) && Lacks(s, '_')
    ensures CamelCase(Some(Underscore(s)), false) == Ok(s)
  {
    var j := NextUpper(s, 1);
    if j < |s| {
      RoundTripWithCapital(s, j);
    } else {
      assert NoUpper(s[1..]);
      RoundTripWithoutCapital(s);
    }
  }
}
