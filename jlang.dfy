/**
 * The small part of java.lang and java.text that the modelled classes rely on:
 * null as Option, thrown exceptions as Result, ASCII case mapping, String.trim,
 * String.lastIndexOf and MessageFormat's "{i}" argument substitution.
 */
module JavaLang {

  /** A Java reference that may be null. */
  datatype Option<T> = None | Some(value: T)

  /** The runtime exceptions the modelled code can raise. */
  datatype Exception =
    | NullPointerException
    | IllegalArgumentException
    | IllegalStateException
    | StringIndexOutOfBoundsException
    | ArrayIndexOutOfBoundsException
    | ArithmeticException
    | NegativeArraySizeException
    | RuntimeException
    | EmptyResultDataAccessException
    | IncorrectResultSizeDataAccessException

  /** The outcome of a call: a value, or the exception it throws. */
  datatype Result<T> = Ok(value: T) | Throws(exception: Exception)

  // ---------------------------------------------------------------------------
  // Characters (ASCII only: the non-ASCII case tables are not modelled)
  // ---------------------------------------------------------------------------

  predicate IsUpper(c: char) { 'A' <= c <= 'Z' }

  predicate IsLower(c: char) { 'a' <= c <= 'z' }

  predicate IsDigit(c: char) { '0' <= c <= '9' }

  /** Character.toLowerCase on ASCII; every other char is its own lower case. */
  function ToLower(c: char): (r: char)
    ensures IsUpper(c) ==> IsLower(r) && r as int == c as int + 32
    ensures !IsUpper(c) ==> r == c
  {
    if IsUpper(c) then (c as int + 32) as char else c
  }

  /** Character.toUpperCase on ASCII. */
  function ToUpper(c: char): (r: char)
    ensures IsLower(c) ==> IsUpper(r) && r as int == c as int - 32
    ensures !IsLower(c) ==> r == c
  {
    if IsLower(c) then (c as int - 32) as char else c
  }

  lemma ToUpperToLower(c: char)
    requires IsLower(c)
    ensures ToLower(ToUpper(c)) == c
  {
  }

  /** String.toLowerCase, char by char. */
  function LowerStr(s: string): (r: string)
    ensures |r| == |s|
    ensures forall i :: 0 <= i < |s| ==> r[i] == ToLower(s[i])
  {
    if s == [] then [] else [ToLower(s[0])] + LowerStr(s[1..])
  }

  /** String.toUpperCase, char by char. */
  function UpperStr(s: string): (r: string)
    ensures |r| == |s|
    ensures forall i :: 0 <= i < |s| ==> r[i] == ToUpper(s[i])
  {
    if s == [] then [] else [ToUpper(s[0])] + UpperStr(s[1..])
  }

  // ---------------------------------------------------------------------------
  // String.trim
  // ---------------------------------------------------------------------------

  /** String.trim treats every char up to U+0020 as white space. */
  predicate IsTrimmable(c: char) { c <= ' ' }

  function TrimLeft(s: string): (r: string)
    ensures |r| <= |s| && r == s[|s| - |r|..]
    ensures r == [] || !IsTrimmable(r[0])
    ensures forall i :: 0 <= i < |s| - |r| ==> IsTrimmable(s[i])
  {
    if s != [] && IsTrimmable(s[0]) then TrimLeft(s[1..]) else s
  }

  function TrimRight(s: string): (r: string)
    ensures |r| <= |s| && r == s[..|r|]
    ensures r == [] || !IsTrimmable(r[|r| - 1])
    ensures forall i :: |r| <= i < |s| ==> IsTrimmable(s[i])
  {
    if s != [] && IsTrimmable(s[|s| - 1]) then TrimRight(s[..|s| - 1]) else s
  }

  /** String.trim: strip white space (chars up to U+0020) from both ends. */
  function Trim(s: string): string
  {
    TrimRight(TrimLeft(s))
  }

  /** The trimmed string neither starts nor ends with white space. */
  lemma TrimEnds(s: string)
    ensures var t := Trim(s);
      t == [] || (!IsTrimmable(t[0]) && !IsTrimmable(t[|t| - 1]))
  {
    var l := TrimLeft(s);
    var t := TrimRight(l);
    if t != [] {
      assert t[0] == l[0];
    }
  }

  /** The trimmed string is the slice of the input after the leading white space. */
  lemma TrimIsInnerSlice(s: string)
    ensures var k := |s| - |TrimLeft(s)|;
      k + |Trim(s)| <= |s| && Trim(s) == s[k..k + |Trim(s)|]
  {
    var l := TrimLeft(s);
    var k := |s| - |l|;
    var t := TrimRight(l);
    assert l == s[k..] && t == l[..|t|];
    PrefixOfSuffix(s, k, |t|);
  }

  lemma PrefixOfSuffix<T>(s: seq<T>, k: nat, m: nat)
    requires k + m <= |s|
    ensures s[k..][..m] == s[k..k + m]
  {
  }

  /** A string is blank for the dictionary loaders when trimming leaves nothing. */
  predicate IsBlank(s: string) { Trim(s) == "" }

  lemma BlankIffAllWhite(s: string)
    ensures IsBlank(s) <==> forall i :: 0 <= i < |s| ==> IsTrimmable(s[i])
  {
    var l := TrimLeft(s);
    if l != [] {
      assert !IsTrimmable(l[0]);
      assert |TrimRight(l)| >= 1;
    }
  }

  // ---------------------------------------------------------------------------
  // Searching, joining, counting
  // ---------------------------------------------------------------------------

  /** No occurrence of c in s. */
  predicate Lacks(s: string, c: char)
  {
    forall i :: 0 <= i < |s| ==> s[i] != c
  }

  /** String.lastIndexOf(char): the last position holding c, or -1. */
  function LastIndexOf(s: string, c: char): (r: int)
    ensures -1 <= r < |s|
    ensures r >= 0 ==> s[r] == c
    ensures forall i :: r < i < |s| ==> s[i] != c
  {
    if s == [] then -1
    else if s[|s| - 1] == c then |s| - 1
    else LastIndexOf(s[..|s| - 1], c)
  }

  lemma ConcatAssoc<X>(a: seq<X>, b: seq<X>, c: seq<X>)
    ensures a + (b + c) == (a + b) + c
  {
  }

  /** Cutting a sequence at j and joining the halves gives it back. */
  lemma SliceJoin<T>(s: seq<T>, j: nat)
    requires j <= |s|
    ensures s[..j] + s[j..] == s
  {
  }

  lemma LacksAppend(a: string, b: string, c: char)
    requires Lacks(a, c) && Lacks(b, c)
    ensures Lacks(a + b, c)
  {
    forall i | 0 <= i < |a + b|
      ensures (a + b)[i] != c
    {
      if i >= |a| {
        assert (a + b)[i] == b[i - |a|];
      }
    }
  }

  /** StringBuilder.deleteCharAt(k); an index outside the text throws. */
  function DeleteCharAt(s: string, k: int): Result<string>
  {
    if 0 <= k < |s| then Ok(s[..k] + s[k + 1..]) else Throws(StringIndexOutOfBoundsException)
  }

  /** Deleting the last c of a text that ends in c gives the text before it. */
  lemma DeleteTrailing(s: string, c: char)
    ensures LastIndexOf(s + [c], c) == |s|
    ensures DeleteCharAt(s + [c], LastIndexOf(s + [c], c)) == Ok(s)
  {
    var t := s + [c];
    assert t[|t| - 1] == c;
    assert LastIndexOf(t, c) == |s|;
    assert t[..|s|] == s && t[|s| + 1..] == [];
    assert t[..|s|] + t[|s| + 1..] == s;
  }

  /** Deleting at lastIndexOf of an absent char throws. */
  lemma DeleteAbsent(s: string, c: char)
    requires Lacks(s, c)
    ensures LastIndexOf(s, c) == -1
    ensures DeleteCharAt(s, LastIndexOf(s, c)) == Throws(StringIndexOutOfBoundsException)
  {
  }

  /** String.lastIndexOf(String): the last position where t starts in s, or -1. */
  function LastIndexOfText(s: string, t: string): (r: int)
    ensures r == -1 || (0 <= r <= |s| - |t| && s[r..r + |t|] == t)
    decreases |s|
  {
    if |s| < |t| then -1
    else if s[|s| - |t|..] == t then |s| - |t|
    else LastIndexOfText(s[..|s| - 1], t)
  }

  /** String.substring(begin, end); indices outside the text throw. */
  function Substring(s: string, begin: int, end: int): Result<string>
  {
    if 0 <= begin <= end <= |s| then Ok(s[begin..end]) else Throws(StringIndexOutOfBoundsException)
  }

  /** Math.min. */
  function Min(a: int, b: int): (r: int)
    ensures r <= a && r <= b && (r == a || r == b)
  {
    if a <= b then a else b
  }

  /** Java's integer division, which truncates toward zero (Dafny's rounds toward negative infinity). */
  function JavaDiv(a: int, b: int): (r: int)
    requires b != 0
    ensures a >= 0 && b > 0 ==> r == a / b
    ensures a <= 0 && b > 0 ==> r == -((-a) / b)
  {
    if a >= 0 then (if b > 0 then a / b else -(a / -b))
    else (if b > 0 then -((-a) / b) else (-a) / (-b))
  }

  function DigitChar(d: nat): (r: char)
    requires d < 10
    ensures '0' <= r <= '9'
  {
    "0123456789"[d]
  }

  function Digits(n: nat): (r: string)
    ensures r != [] && forall i :: 0 <= i < |r| ==> '0' <= r[i] <= '9'
  {
    if n < 10 then [DigitChar(n)] else Digits(n / 10) + [DigitChar(n % 10)]
  }

  /** The decimal text string concatenation gives a long: a '-' sign and the digits. */
  function LongStr(n: int): string
  {
    if n < 0 then "-" + Digits(-n) else Digits(n)
  }

  /** The number of occurrences of c in s. */
  function Count(s: string, c: char): nat
  {
    if s == [] then 0 else (if s[0] == c then 1 else 0) + Count(s[1..], c)
  }

  lemma {:induction false} CountAppend(a: string, b: string, c: char)
    ensures Count(a + b, c) == Count(a, c) + Count(b, c)
  {
    if a == [] {
      assert a + b == b;
    } else {
      assert (a + b)[1..] == a[1..] + b;
      CountAppend(a[1..], b, c);
    }
  }

  lemma {:induction false} CountAbsent(s: string, c: char)
    requires forall i :: 0 <= i < |s| ==> s[i] != c
    ensures Count(s, c) == 0
  {
    if s != [] {
      CountAbsent(s[1..], c);
    }
  }

  /** The parts joined with sep between consecutive parts. */
  function Join(parts: seq<string>, sep: string): string
  {
    if parts == [] then ""
    else if |parts| == 1 then parts[0]
    else Join(parts[..|parts| - 1], sep) + sep + parts[|parts| - 1]
  }

  /** Every part followed by sep, as a loop appending "part" then "sep" builds it. */
  function Terminated(parts: seq<string>, sep: string): string
  {
    if parts == [] then "" else Terminated(parts[..|parts| - 1], sep) + parts[|parts| - 1] + sep
  }

  lemma TerminatedSnoc(parts: seq<string>, x: string, sep: string)
    ensures Terminated(parts + [x], sep) == Terminated(parts, sep) + x + sep
  {
    assert (parts + [x])[..|parts|] == parts;
  }

  lemma JoinSnoc(parts: seq<string>, x: string, sep: string)
    requires parts != []
    ensures Join(parts + [x], sep) == Join(parts, sep) + sep + x
  {
    assert (parts + [x])[..|parts|] == parts;
  }

  /** Cutting the last separator off a terminated list gives the joined list. */
  lemma {:induction false} TerminatedIsJoinPlusSep(parts: seq<string>, sep: string)
    requires parts != []
    ensures Terminated(parts, sep) == Join(parts, sep) + sep
  {
    if |parts| > 1 {
      var init := parts[..|parts| - 1];
      TerminatedIsJoinPlusSep(init, sep);
    }
  }

  lemma {:induction false} JoinCount(parts: seq<string>, sep: string, c: char)
    requires Lacks(sep, c)
    ensures Count(Join(parts, sep), c) == CountAll(parts, c)
  {
    if |parts| > 1 {
      var init := parts[..|parts| - 1];
      JoinCount(init, sep, c);
      CountAbsent(sep, c);
      CountAppend(Join(init, sep), sep, c);
      CountAppend(Join(init, sep) + sep, parts[|parts| - 1], c);
    }
  }

  /** The occurrences of c across all parts. */
  function CountAll(parts: seq<string>, c: char): nat
  {
    if parts == [] then 0 else CountAll(parts[..|parts| - 1], c) + Count(parts[|parts| - 1], c)
  }

  lemma PlainAppend(a: string, b: string)
    requires Plain(a) && Plain(b)
    ensures Plain(a + b)
  {
    forall i | 0 <= i < |a + b|
      ensures (a + b)[i] != '{'
    {
      if i >= |a| {
        assert (a + b)[i] == b[i - |a|];
      }
    }
  }

  lemma {:induction false} PlainJoin(parts: seq<string>, sep: string)
    requires Plain(sep) && forall i :: 0 <= i < |parts| ==> Plain(parts[i])
    ensures Plain(Join(parts, sep))
  {
    if |parts| > 1 {
      var init := parts[..|parts| - 1];
      PlainJoin(init, sep);
      PlainAppend(Join(init, sep), sep);
      PlainAppend(Join(init, sep) + sep, parts[|parts| - 1]);
    }
  }

  /** n copies of s, concatenated. */
  function Repeat(s: string, n: nat): (r: string)
    ensures |r| == n * |s|
  {
    if n == 0 then "" else s + Repeat(s, n - 1)
  }

  lemma {:induction false} RepeatCount(s: string, n: nat, c: char)
    ensures Count(Repeat(s, n), c) == n * Count(s, c)
  {
    if n > 0 {
      var k := Count(s, c);
      CountAppend(s, Repeat(s, n - 1), c);
      RepeatCount(s, n - 1, c);
      assert Count(Repeat(s, n), c) == k + (n - 1) * k;
      assert k + (n - 1) * k == n * k;
    }
  }

  lemma {:induction false} RepeatSnoc(s: string, n: nat)
    ensures Repeat(s, n) + s == Repeat(s, n + 1)
  {
    if n > 0 {
      RepeatSnoc(s, n - 1);
    }
  }

  // ---------------------------------------------------------------------------
  // MessageFormat.format, reduced to argument substitution
  // ---------------------------------------------------------------------------

  /** How MessageFormat renders a String argument: null becomes "null". */
  function Str(s: Option<string>): string
  {
    if s.None? then "null" else s.value
  }

  /** No '{' in s: MessageFormat copies such text unchanged. */
  predicate Plain(s: string) { forall i :: 0 <= i < |s| ==> s[i] != '{' }

  /**
   * MessageFormat.format(pattern, args) for patterns whose placeholders are
   * "{0}" .. "{9}": each placeholder with an argument is replaced by that
   * argument; all other text is copied.
   */
  function Format(pattern: string, args: seq<string>): string
    decreases |pattern|
  {
    if pattern == [] then ""
    else if |pattern| >= 3 && pattern[0] == '{' && IsDigit(pattern[1]) && pattern[2] == '}'
            && pattern[1] as int - '0' as int < |args|
    then args[pattern[1] as int - '0' as int] + Format(pattern[3..], args)
    else [pattern[0]] + Format(pattern[1..], args)
  }

  lemma {:induction false} FormatPlain(s: string, args: seq<string>)
    requires Plain(s)
    ensures Format(s, args) == s
  {
    if s != [] {
      FormatPlain(s[1..], args);
    }
  }

  lemma {:induction false} FormatAppendPlain(a: string, b: string, args: seq<string>)
    requires Plain(a)
    ensures Format(a + b, args) == a + Format(b, args)
  {
    if a != [] {
      assert (a + b)[1..] == a[1..] + b;
      FormatAppendPlain(a[1..], b, args);
    } else {
      assert a + b == b;
    }
  }

  /** The placeholder "{i}" at the head of a pattern is replaced by args[i]. */
  lemma FormatPlaceholder(i: nat, rest: string, args: seq<string>)
    requires i < 10 && i < |args|
    ensures Format(Placeholder(i) + rest, args) == args[i] + Format(rest, args)
  {
    var p := Placeholder(i) + rest;
    assert p[0] == '{' && p[2] == '}' && p[1] as int - '0' as int == i;
    assert p[3..] == rest;
  }

  function Placeholder(i: nat): (r: string)
    requires i < 10
    ensures |r| == 3
  {
    ['{', ('0' as int + i) as char, '}']
  }

  lemma FormatArgThen(i: nat, sep: string, rest: string, args: seq<string>)
    requires i < 10 && i < |args| && Plain(sep)
    ensures Format(Placeholder(i) + (sep + rest), args) == args[i] + (sep + Format(rest, args))
  {
    FormatPlaceholder(i, sep + rest, args);
    FormatAppendPlain(sep, rest, args);
  }

  lemma FormatLast(i: nat, args: seq<string>)
    requires i < 10 && i < |args|
    ensures Format(Placeholder(i), args) == args[i]
  {
    FormatPlaceholder(i, "", args);
    assert Placeholder(i) + "" == Placeholder(i);
  }

  /** "{i} {j}" at the end of a pattern. */
  lemma FormatPair(i: nat, sep: string, j: nat, args: seq<string>)
    requires i < 10 && j < 10 && i < |args| && j < |args| && Plain(sep)
    ensures Format(Placeholder(i) + (sep + Placeholder(j)), args) == args[i] + (sep + args[j])
  {
    FormatLast(j, args);
    FormatArgThen(i, sep, Placeholder(j), args);
  }
}
