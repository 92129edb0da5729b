/** The .NET string operations the profile code relies on, over `seq<char>`. */
module Text {
  import opened Base

  /** `char.IsWhiteSpace`: U+0009..U+000D, U+0085, and the Unicode space,
      line and paragraph separators. */
  predicate IsWhiteSpace(c: char) {
    ('\t' <= c <= '\r') || c == ' ' || c == '\U{0085}' || c == '\U{00A0}' || c == '\U{1680}'
    || ('\U{2000}' <= c <= '\U{200A}') || c == '\U{2028}' || c == '\U{2029}'
    || c == '\U{202F}' || c == '\U{205F}' || c == '\U{3000}'
  }

  /** The separators that count as whitespace and the format characters that
      do not: the zero-width space, the byte-order mark and the Mongolian vowel
      separator (a separator before Unicode 6.3) are not whitespace. */
  lemma WhiteSpaceBoundary()
    ensures IsWhiteSpace(' ') && IsWhiteSpace('\t') && IsWhiteSpace('\n') && IsWhiteSpace('\U{00A0}')
    ensures IsWhiteSpace('\U{2007}') && IsWhiteSpace('\U{3000}')
    ensures !IsWhiteSpace('\U{200B}') && !IsWhiteSpace('\U{FEFF}') && !IsWhiteSpace('\U{180E}')
    ensures forall c: char :: 'a' <= c <= 'z' || '0' <= c <= '9' ==> !IsWhiteSpace(c)
  {
  }

  /** `string.IsNullOrWhiteSpace` on a non-null string: empty or whitespace only. */
  predicate IsBlank(s: string) {
    forall i :: 0 <= i < |s| ==> IsWhiteSpace(s[i])
  }

  /** `string.TrimStart()`: drops the leading whitespace. */
  function TrimStart(s: string): (r: string)
    ensures |r| <= |s| && r == s[|s| - |r|..]
    ensures forall i :: 0 <= i < |s| - |r| ==> IsWhiteSpace(s[i])
    ensures r == [] || !IsWhiteSpace(r[0])
  {
    if |s| > 0 && IsWhiteSpace(s[0]) then TrimStart(s[1..]) else s
  }

  /** `string.TrimEnd()`: drops the trailing whitespace. */
  function TrimEnd(s: string): (r: string)
    ensures |r| <= |s| && r == s[..|r|]
    ensures forall i :: |r| <= i < |s| ==> IsWhiteSpace(s[i])
    ensures r == [] || !IsWhiteSpace(r[|r| - 1])
  {
    if |s| > 0 && IsWhiteSpace(s[|s| - 1]) then TrimEnd(s[..|s| - 1]) else s
  }

  /** `r` is the slice of `s` starting at `lo`, everything of `s` outside that
      slice is whitespace, and neither end of `r` is whitespace. */
  predicate TrimmedAt(r: string, s: string, lo: int) {
    0 <= lo <= |s| - |r| && r == s[lo..lo + |r|]
    && (forall i :: 0 <= i < lo ==> IsWhiteSpace(s[i]))
    && (forall i :: lo + |r| <= i < |s| ==> IsWhiteSpace(s[i]))
    && (r == [] || (!IsWhiteSpace(r[0]) && !IsWhiteSpace(r[|r| - 1])))
  }

  /** `r` is `s` with a whitespace prefix and a whitespace suffix removed. */
  ghost predicate IsTrimOf(r: string, s: string) {
    exists lo :: TrimmedAt(r, s, lo)
  }

  lemma TrimEndOfSuffix(s: string, t: string, lo: int)
    requires 0 <= lo <= |s| && t == s[lo..]
    requires t == [] || !IsWhiteSpace(t[0])
    requires forall i :: 0 <= i < lo ==> IsWhiteSpace(s[i])
    ensures TrimmedAt(TrimEnd(t), s, lo)
  {
    var r := TrimEnd(t);
    forall i | lo + |r| <= i < |s| ensures IsWhiteSpace(s[i]) {
      assert s[i] == t[i - lo];
    }
    assert r != [] ==> r[0] == t[0];
  }

  lemma TrimStartEndSlice(s: string)
    ensures TrimmedAt(TrimEnd(TrimStart(s)), s, |s| - |TrimStart(s)|)
  {
    TrimEndOfSuffix(s, TrimStart(s), |s| - |TrimStart(s)|);
  }

  /** `string.Trim()`. */
  function Trim(s: string): (r: string)
    ensures IsTrimOf(r, s)
    ensures r == [] <==> IsBlank(s)
  {
    TrimStartEndSlice(s);
    var r := TrimEnd(TrimStart(s));
    var lo := |s| - |TrimStart(s)|;
    assert TrimmedAt(r, s, lo);
    assert r == [] ==> IsBlank(s) by {
      if r == [] {
        forall i | 0 <= i < |s| ensures IsWhiteSpace(s[i]) {
          assert i < lo || lo + |r| <= i;
        }
      }
    }
    assert r != [] ==> !IsBlank(s) by {
      if r != [] {
        assert s[lo] == r[0];
      }
    }
    r
  }

  /** Trimming keeps a text free of space pairs, and a text trimming does not
      shorten is left as it is. */
  lemma TrimSpacePairs(s: string)
    ensures NoSpacePair(s) ==> NoSpacePair(Trim(s))
    ensures |Trim(s)| == |s| ==> Trim(s) == s
  {
    var t := Trim(s);
    var lo :| TrimmedAt(t, s, lo);
    if NoSpacePair(s) {
      NoSpacePairSlice(s, lo, lo + |t|);
    }
    if |t| == |s| {
      assert t == s[0..|s|] == s;
    }
  }

  /** No two adjacent spaces. */
  predicate NoSpacePair(s: string) {
    |s| < 2 || (!(s[0] == ' ' && s[1] == ' ') && NoSpacePair(s[1..]))
  }

  /** The left-to-right pass behind `Replace("  ", " ")`: a pair of spaces at
      the front becomes one space and the scan resumes after the pair; any other
      first character is kept and the scan resumes after it. */
  function SpacePairPass(s: string): string {
    if |s| >= 2 && s[0] == ' ' && s[1] == ' ' then [' '] + SpacePairPass(s[2..])
    else if s == [] then []
    else [s[0]] + SpacePairPass(s[1..])
  }

  lemma {:induction false} SpacePairPassShape(s: string)
    ensures |SpacePairPass(s)| <= |s|
    ensures !NoSpacePair(s) ==> |SpacePairPass(s)| < |s|
    ensures NoSpacePair(s) ==> SpacePairPass(s) == s
    ensures SpacePairPass(s) == [] <==> s == []
    ensures s != [] ==> SpacePairPass(s)[0] == s[0] && SpacePairPass(s)[|SpacePairPass(s)| - 1] == s[|s| - 1]
    decreases |s|
  {
    if |s| >= 2 && s[0] == ' ' && s[1] == ' ' {
      SpacePairPassShape(s[2..]);
    } else if s != [] {
      SpacePairPassShape(s[1..]);
    }
  }

  /** The pass only leaves characters out: its result is a subsequence of its input. */
  lemma {:induction false} SpacePairPassSubsequence(s: string)
    ensures IsSubsequence(SpacePairPass(s), s)
    decreases |s|
  {
    var r := SpacePairPass(s);
    if |s| >= 2 && s[0] == ' ' && s[1] == ' ' {
      var tail := SpacePairPass(s[2..]);
      SpacePairPassSubsequence(s[2..]);
      assert IsSubsequence(tail, s[1..]) by {
        assert s[1..][1..] == s[2..];
      }
      assert r == [' '] + tail && r[1..] == tail;
    } else if s != [] {
      var tail := SpacePairPass(s[1..]);
      SpacePairPassSubsequence(s[1..]);
      assert r == [s[0]] + tail && r[1..] == tail;
    }
  }

  /** A slice of text without a pair of spaces has none either. */
  lemma {:induction false} NoSpacePairSlice(s: string, lo: int, hi: int)
    requires 0 <= lo <= hi <= |s| && NoSpacePair(s)
    ensures NoSpacePair(s[lo..hi])
    decreases |s|
  {
    if lo > 0 {
      assert s[lo..hi] == s[1..][lo - 1..hi - 1];
      NoSpacePairSlice(s[1..], lo - 1, hi - 1);
    } else if hi < |s| {
      assert s[lo..hi] == s[..|s| - 1][lo..hi];
      NoSpacePairPrefix(s);
      NoSpacePairSlice(s[..|s| - 1], lo, hi);
    } else {
      assert s[lo..hi] == s;
    }
  }

  /** Dropping the last character keeps a text free of space pairs. */
  lemma {:induction false} NoSpacePairPrefix(s: string)
    requires |s| > 0 && NoSpacePair(s)
    ensures NoSpacePair(s[..|s| - 1])
    decreases |s|
  {
    var p := s[..|s| - 1];
    if |s| >= 3 {
      NoSpacePairPrefix(s[1..]);
      assert p[1..] == s[1..][..|s[1..]| - 1];
    }
  }

  /** `s.Replace("  ", " ")`: one left-to-right pass that turns every
      non-overlapping pair of spaces into a single space. The result is `s`
      with some spaces left out: strictly shorter when `s` has a pair of
      spaces, and `s` itself otherwise. */
  function ReplaceSpacePairs(s: string): (r: string)
    ensures IsSubsequence(r, s)
    ensures |r| <= |s|
    ensures !NoSpacePair(s) ==> |r| < |s|
    ensures NoSpacePair(s) ==> r == s
    ensures r == [] <==> s == []
    ensures s != [] ==> r[0] == s[0] && r[|r| - 1] == s[|s| - 1]
  {
    SpacePairPassShape(s);
    SpacePairPassSubsequence(s);
    SpacePairPass(s)
  }

  /** `k` spaces. */
  function Spaces(k: nat): (r: string)
    ensures |r| == k && forall i :: 0 <= i < k ==> r[i] == ' '
  {
    if k == 0 then [] else [' '] + Spaces(k - 1)
  }

  /** The pass never carries a pair across a character other than a space: the
      text on either side of it is processed independently. */
  lemma {:induction false} ReplaceSpacePairsConcat(a: string, b: string)
    requires a == [] || a[|a| - 1] != ' '
    ensures SpacePairPass(a + b) == SpacePairPass(a) + SpacePairPass(b)
    decreases |a|
  {
    if a == [] {
      assert a + b == b;
    } else if |a| >= 2 && a[0] == ' ' && a[1] == ' ' {
      ReplaceSpacePairsConcat(a[2..], b);
      ConcatAfterPair(a, b);
    } else {
      ReplaceSpacePairsConcat(a[1..], b);
      ConcatAfterChar(a, b);
    }
  }

  /** One step of the pass on text that starts with a pair of spaces. */
  lemma PassPair(s: string)
    requires |s| >= 2 && s[0] == ' ' && s[1] == ' '
    ensures SpacePairPass(s) == [' '] + SpacePairPass(s[2..])
  {
  }

  /** One step of the pass on text whose first character is kept on its own. */
  lemma PassKeep(s: string)
    requires s != [] && !(|s| >= 2 && s[0] == ' ' && s[1] == ' ')
    ensures SpacePairPass(s) == [s[0]] + SpacePairPass(s[1..])
  {
  }

  /** The step of `ReplaceSpacePairsConcat` when `a` starts with a pair of spaces. */
  lemma ConcatAfterPair(a: string, b: string)
    requires |a| >= 2 && a[0] == ' ' && a[1] == ' '
    requires SpacePairPass(a[2..] + b) == SpacePairPass(a[2..]) + SpacePairPass(b)
    ensures SpacePairPass(a + b) == SpacePairPass(a) + SpacePairPass(b)
  {
    var ab := a + b;
    calc {
      SpacePairPass(ab);
      == { assert ab[0] == ' ' && ab[1] == ' '; PassPair(ab); }
      [' '] + SpacePairPass(ab[2..]);
      == { DropAppend(a, b, 2); }
      [' '] + (SpacePairPass(a[2..]) + SpacePairPass(b));
      == { AppendAssoc([' '], SpacePairPass(a[2..]), SpacePairPass(b)); }
      ([' '] + SpacePairPass(a[2..])) + SpacePairPass(b);
      == { PassPair(a); }
      SpacePairPass(a) + SpacePairPass(b);
    }
  }

  /** The step of `ReplaceSpacePairsConcat` when `a` starts with a character
      the pass keeps on its own. */
  lemma ConcatAfterChar(a: string, b: string)
    requires a != [] && a[|a| - 1] != ' ' && !(|a| >= 2 && a[0] == ' ' && a[1] == ' ')
    requires SpacePairPass(a[1..] + b) == SpacePairPass(a[1..]) + SpacePairPass(b)
    ensures SpacePairPass(a + b) == SpacePairPass(a) + SpacePairPass(b)
  {
    var ab := a + b;
    calc {
      SpacePairPass(ab);
      == { assert ab[0] == a[0] && (|a| >= 2 ==> ab[1] == a[1]); PassKeep(ab); }
      [a[0]] + SpacePairPass(ab[1..]);
      == { DropAppend(a, b, 1); }
      [a[0]] + (SpacePairPass(a[1..]) + SpacePairPass(b));
      == { AppendAssoc([a[0]], SpacePairPass(a[1..]), SpacePairPass(b)); }
      ([a[0]] + SpacePairPass(a[1..])) + SpacePairPass(b);
      == { PassKeep(a); }
      SpacePairPass(a) + SpacePairPass(b);
    }
  }

  /** A run of `k` spaces not followed by another space becomes `(k + 1) / 2`
      spaces: the pass halves the run, rounding up, and does not collapse it to one. */
  lemma {:induction false} ReplaceSpaceRun(k: nat, b: string)
    requires b == [] || b[0] != ' '
    ensures SpacePairPass(Spaces(k) + b) == Spaces((k + 1) / 2) + SpacePairPass(b)
    decreases k
  {
    var s := Spaces(k) + b;
    if k == 0 {
      assert s == b;
    } else if k == 1 {
      calc {
        SpacePairPass(s);
        == { assert s[0] == ' ' && (|s| < 2 || s[1] != ' '); }
        [' '] + SpacePairPass(s[1..]);
        == { DropAppend(Spaces(1), b, 1); assert Spaces(1)[1..] == []; }
        [' '] + SpacePairPass(b);
        == { assert Spaces(1) == [' ']; }
        Spaces((k + 1) / 2) + SpacePairPass(b);
      }
    } else {
      calc {
        SpacePairPass(s);
        == { assert s[0] == ' ' && s[1] == ' '; }
        [' '] + SpacePairPass(s[2..]);
        == { DropAppend(Spaces(k), b, 2); assert Spaces(k)[2..] == Spaces(k - 2); }
        [' '] + SpacePairPass(Spaces(k - 2) + b);
        == { ReplaceSpaceRun(k - 2, b); }
        [' '] + (Spaces((k - 1) / 2) + SpacePairPass(b));
        == { AppendAssoc([' '], Spaces((k - 1) / 2), SpacePairPass(b)); }
        ([' '] + Spaces((k - 1) / 2)) + SpacePairPass(b);
        == { assert (k + 1) / 2 - 1 == (k - 1) / 2; }
        Spaces((k + 1) / 2) + SpacePairPass(b);
      }
    }
  }

  /** Two worked cases of the single pass: two spaces become one, and three spaces
      become two rather than one. */
  lemma ReplaceSpacePairsExamples()
    ensures ReplaceSpacePairs("a  b") == "a b"
    ensures ReplaceSpacePairs("a   b") == "a  b"
  {
    ReplaceSpacePairsConcat("a", "  b");
    ReplaceSpaceRun(2, "b");
    ReplaceSpacePairsConcat("a", "   b");
    ReplaceSpaceRun(3, "b");
    assert Spaces(2) + "b" == "  b";
    assert Spaces(3) + "b" == "   b";
    assert Spaces(1) == " " && Spaces(2) == "  ";
  }

  /** The characters of `s` other than the space. */
  function WithoutSpaces(s: string): (r: string)
    ensures ' ' !in r
  {
    if s == [] then [] else (if s[0] == ' ' then [] else [s[0]]) + WithoutSpaces(s[1..])
  }

  lemma {:induction false} WithoutSpacesConcat(a: string, b: string)
    ensures WithoutSpaces(a + b) == WithoutSpaces(a) + WithoutSpaces(b)
    decreases |a|
  {
    if a == [] {
      assert a + b == b;
    } else {
      var head := if a[0] == ' ' then [] else [a[0]];
      calc {
        WithoutSpaces(a + b);
        == { assert (a + b)[0] == a[0]; }
        head + WithoutSpaces((a + b)[1..]);
        == { DropAppend(a, b, 1); }
        head + WithoutSpaces(a[1..] + b);
        == { WithoutSpacesConcat(a[1..], b); }
        head + (WithoutSpaces(a[1..]) + WithoutSpaces(b));
        == { AppendAssoc(head, WithoutSpaces(a[1..]), WithoutSpaces(b)); }
        (head + WithoutSpaces(a[1..])) + WithoutSpaces(b);
        ==
        WithoutSpaces(a) + WithoutSpaces(b);
      }
    }
  }

  /** Replacing space pairs only ever deletes spaces: every other character
      survives, in order. */
  lemma ReplaceSpacePairsKeepsText(s: string)
    ensures WithoutSpaces(ReplaceSpacePairs(s)) == WithoutSpaces(s)
  {
    SpacePairPassKeepsText(s);
  }

  lemma {:induction false} SpacePairPassKeepsText(s: string)
    ensures WithoutSpaces(SpacePairPass(s)) == WithoutSpaces(s)
    decreases |s|
  {
    if |s| >= 2 && s[0] == ' ' && s[1] == ' ' {
      var t := s[2..];
      calc {
        WithoutSpaces(SpacePairPass(s));
        == { PassPair(s); }
        WithoutSpaces([' '] + SpacePairPass(t));
        == { WithoutSpacesConcat([' '], SpacePairPass(t)); }
        WithoutSpaces([' ']) + WithoutSpaces(SpacePairPass(t));
        == { SpacePairPassKeepsText(t); }
        WithoutSpaces([' ']) + WithoutSpaces(t);
        == { assert WithoutSpaces([' ']) == []; }
        WithoutSpaces(t);
        == { assert s[1..][1..] == t; }
        WithoutSpaces(s);
      }
    } else if s != [] {
      var t := s[1..];
      calc {
        WithoutSpaces(SpacePairPass(s));
        == { PassKeep(s); }
        WithoutSpaces([s[0]] + SpacePairPass(t));
        == { WithoutSpacesConcat([s[0]], SpacePairPass(t)); }
        WithoutSpaces([s[0]]) + WithoutSpaces(SpacePairPass(t));
        == { SpacePairPassKeepsText(t); }
        WithoutSpaces([s[0]]) + WithoutSpaces(t);
        == { assert [s[0]][1..] == []; }
        WithoutSpaces(s);
      }
    }
  }

  /** `char.ToLower` restricted to ASCII: A-Z become a-z, everything else is kept. */
  function ToLowerChar(c: char): char {
    if 'A' <= c <= 'Z' then (c as int + 32) as char else c
  }

  /** `string.ToLower()`, under the ASCII-only reading of `ToLowerChar`. */
  function ToLower(s: string): (r: string)
    ensures |r| == |s|
    ensures forall i :: 0 <= i < |s| ==> r[i] == ToLowerChar(s[i])
  {
    seq(|s|, i requires 0 <= i < |s| => ToLowerChar(s[i]))
  }

  /** Lower-casing twice is lower-casing once. */
  lemma ToLowerIdempotent(s: string)
    ensures ToLower(ToLower(s)) == ToLower(s)
  {
    forall i | 0 <= i < |s| ensures ToLower(ToLower(s))[i] == ToLower(s)[i] {
      assert ToLowerChar(ToLowerChar(s[i])) == ToLowerChar(s[i]);
    }
  }

  /** `pat` occurs in `s` starting at index `i`. */
  predicate OccursAt(s: string, pat: string, i: int) {
    0 <= i && i + |pat| <= |s| && s[i..i + |pat|] == pat
  }

  /** `s.Contains(pat)`: ordinal substring search. */
  function Contains(s: string, pat: string): (r: bool)
    ensures r <==> exists i :: OccursAt(s, pat, i)
    decreases |s|
  {
    if |s| < |pat| then
      false
    else if s[..|pat|] == pat then
      assert OccursAt(s, pat, 0);
      true
    else
      var r := Contains(s[1..], pat);
      assert r ==> exists i :: OccursAt(s, pat, i) by {
        if r {
          var j :| OccursAt(s[1..], pat, j);
          assert s[1..][j..j + |pat|] == s[j + 1..j + 1 + |pat|];
          assert OccursAt(s, pat, j + 1);
        }
      }
      assert (exists i :: OccursAt(s, pat, i)) ==> r by {
        if exists i :: OccursAt(s, pat, i) {
          var i :| OccursAt(s, pat, i);
          assert i != 0;
          assert s[1..][i - 1..i - 1 + |pat|] == s[i..i + |pat|];
          assert OccursAt(s[1..], pat, i - 1);
        }
      }
      r
  }
}
