/** FileUtil.parseFilename: drops the chars a file name may not hold. */
module FileNames {
  import opened JavaLang

  /** FileUtil.invalidChars. */
  const InvalidChars: seq<char> := ['>']

  /** The input with every invalid char deleted, the others kept in order. */
  function Strip(s: string): string
  {
    if s == [] then []
    else Strip(s[..|s| - 1]) + (if s[|s| - 1] in InvalidChars then [] else [s[|s| - 1]])
  }

  /**
   * FileUtil.parseFilename: copies the chars of the name into a buffer of the
   * same length, skipping each one that matches an invalid char, and returns
   * the filled part of the buffer.
   */
  method ParseFilename(filename: string) returns (r: string)
    ensures r == Strip(filename)
  {
    var fChars := new char[|filename|](k requires 0 <= k < |filename| => filename[k]);
    var resultChar := new char[fChars.Length];
    var i := 0;
    var j := 0;
    while j < fChars.Length
      invariant 0 <= j <= fChars.Length && fChars[..] == filename
      invariant 0 <= i <= j && resultChar[..i] == Strip(filename[..j])
    {
      var fc := fChars[j];
      assert filename[..j + 1][..j] == filename[..j];
      var invalid := false;
      var k := 0;
      while k < |InvalidChars|
        invariant 0 <= k <= |InvalidChars| && fc !in InvalidChars[..k]
      {
        if fc == InvalidChars[k] {
          invalid := true;
          break;
        }
        assert InvalidChars[..k + 1] == InvalidChars[..k] + [InvalidChars[k]];
        k := k + 1;
      }
      if !invalid {
        assert InvalidChars[..k] == InvalidChars;
        resultChar[i] := fc;
        i := i + 1;
      }
      j := j + 1;
    }
    assert filename[..j] == filename;
    r := resultChar[..i];
  }

  lemma {:induction false} StripAppend(a: string, b: string)
    ensures Strip(a + b) == Strip(a) + Strip(b)
    decreases |b|
  {
    if b == [] {
      assert a + b == a;
    } else {
      var init := b[..|b| - 1];
      assert (a + b)[..|a + b| - 1] == a + init;
      assert (a + b)[|a + b| - 1] == b[|b| - 1];
      StripAppend(a, init);
    }
  }

  /** The result holds no '>'. */
  lemma {:induction false} StripHasNoInvalid(s: string)
    ensures forall i :: 0 <= i < |Strip(s)| ==> Strip(s)[i] != '>'
  {
    if s != [] {
      StripHasNoInvalid(s[..|s| - 1]);
    }
  }

  /** One char fewer for each '>' of the input. */
  lemma {:induction false} StripLength(s: string)
    ensures |Strip(s)| == |s| - Count(s, '>')
  {
    if s != [] {
      var init := s[..|s| - 1];
      StripLength(init);
      assert init + [s[|s| - 1]] == s;
      CountAppend(init, [s[|s| - 1]], '>');
    }
  }

  /** A name without '>' is returned unchanged. */
  lemma {:induction false} StripIdentity(s: string)
    requires forall i :: 0 <= i < |s| ==> s[i] != '>'
    ensures Strip(s) == s
  {
    if s != [] {
      StripIdentity(s[..|s| - 1]);
    }
  }

  /** Cleaning a cleaned name changes nothing. */
  lemma StripIdempotent(s: string)
    ensures Strip(Strip(s)) == Strip(s)
  {
    StripHasNoInvalid(s);
    StripIdentity(Strip(s));
  }
}
