/** The string operations of `load_video_transcript`: joining caption entries
    with single spaces (app.py:126-128) and Python's `str.strip()` applied to
    the manually pasted transcript (app.py:173-177). */
module TranscriptText {

  /** Python's `str.isspace()` for one character: the code points whose
      bidirectional class is WS, B or S, or whose category is Zs. */
  predicate IsWhitespace(c: char) {
    var n := c as int;
    (9 <= n <= 13) || (28 <= n <= 32) || n == 0x85 || n == 0xA0 || n == 0x1680 ||
    (0x2000 <= n <= 0x200A) || n == 0x2028 || n == 0x2029 || n == 0x202F ||
    n == 0x205F || n == 0x3000
  }

  predicate AllWhitespace(s: string) {
    forall k :: 0 <= k < |s| ==> IsWhitespace(s[k])
  }

  /** The leading half of `s.strip()`: the suffix left after dropping leading whitespace. */
  function TrimStart(s: string): (r: string)
    ensures |r| <= |s| && r == s[|s| - |r|..]
    ensures AllWhitespace(s[..|s| - |r|])
    ensures r == [] || !IsWhitespace(r[0])
  {
    if s == [] || !IsWhitespace(s[0]) then s
    else
      var r := TrimStart(s[1..]);
      assert s[..|s| - |r|] == [s[0]] + s[1..][..|s| - 1 - |r|];
      r
  }

  /** The trailing half of `s.strip()`: the prefix left after dropping trailing whitespace. */
  function TrimEnd(s: string): (r: string)
    ensures |r| <= |s| && r == s[..|r|]
    ensures AllWhitespace(s[|r|..])
    ensures r == [] || !IsWhitespace(r[|r| - 1])
  {
    if s == [] || !IsWhitespace(s[|s| - 1]) then s
    else
      var r := TrimEnd(s[..|s| - 1]);
      assert s[|r|..] == s[..|s| - 1][|r|..] + [s[|s| - 1]];
      r
  }

  /** `r` is `s` with whitespace only removed: the `a` characters before it
      and all characters after it. */
  predicate StrippedAt(s: string, r: string, a: nat) {
    a + |r| <= |s| && r == s[a..a + |r|] && AllWhitespace(s[..a]) && AllWhitespace(s[a + |r|..])
  }

  /** `s.strip()`. */
  function Strip(s: string): (r: string)
    ensures exists a: nat :: StrippedAt(s, r, a)
    ensures r == [] || (!IsWhitespace(r[0]) && !IsWhitespace(r[|r| - 1]))
  {
    var t := TrimStart(s);
    var r := TrimEnd(t);
    StripOfTrims(s, t, r);
    r
  }

  /** Dropping a whitespace prefix and then a whitespace suffix leaves a
      middle part of the original with whitespace only around it. */
  lemma StripOfTrims(s: string, t: string, r: string)
    requires |t| <= |s| && t == s[|s| - |t|..] && AllWhitespace(s[..|s| - |t|])
    requires |r| <= |t| && r == t[..|r|] && AllWhitespace(t[|r|..])
    ensures StrippedAt(s, r, |s| - |t|)
  {
    var a := |s| - |t|;
    assert r == s[a..a + |r|];
    assert s[a + |r|..] == t[|r|..];
  }

  /** Stripping removes nothing but whitespace: the result is empty exactly
      when the input is all whitespace. */
  lemma StripEmptyIff(s: string)
    ensures Strip(s) == [] <==> AllWhitespace(s)
  {
    var r := Strip(s);
    var a: nat :| StrippedAt(s, r, a);
    assert a + |r| <= |s| && r == s[a..a + |r|];
    if r == [] {
      forall k | 0 <= k < |s| ensures IsWhitespace(s[k]) {
        if k < a { assert s[k] == s[..a][k]; } else { assert s[k] == s[a + |r|..][k - a]; }
      }
    } else {
      assert r[0] == s[a..a + |r|][0] == s[a];
    }
  }

  /** Text that starts and ends with non-whitespace is left alone. */
  lemma StripKeepsTrimmed(s: string)
    requires s == [] || (!IsWhitespace(s[0]) && !IsWhitespace(s[|s| - 1]))
    ensures Strip(s) == s
  {
    assert TrimStart(s) == s;
    assert TrimEnd(s) == s;
  }

  /** Stripping twice is stripping once. */
  lemma StripIdempotent(s: string)
    ensures Strip(Strip(s)) == Strip(s)
  {
    StripKeepsTrimmed(Strip(s));
  }

  /** Total number of characters in `texts`. */
  function TotalLength(texts: seq<string>): nat {
    if texts == [] then 0 else |texts[0]| + TotalLength(texts[1..])
  }

  /** `' '.join(texts)`: every character of every text, plus one separator
      between each two neighbours. */
  function JoinWithSpaces(texts: seq<string>): (r: string)
    ensures texts != [] ==> |r| == TotalLength(texts) + |texts| - 1
    ensures texts != [] ==> texts[0] <= r
  {
    if |texts| == 0 then ""
    else if |texts| == 1 then texts[0]
    else texts[0] + " " + JoinWithSpaces(texts[1..])
  }

  /** `s.split(' ')`: the pieces between single spaces, empty pieces kept.
      A space starts a new piece; any other character extends the first
      piece of the rest. */
  function SplitOnSpaces(s: string): (parts: seq<string>)
    ensures |parts| >= 1
    ensures ' ' !in s ==> parts == [s]
  {
    if s == [] then [""]
    else
      var parts := SplitOnSpaces(s[1..]);
      if s[0] == ' ' then [""] + parts
      else
        assert ' ' !in s ==> ' ' !in s[1..] && [s[0]] + s[1..] == s;
        [[s[0]] + parts[0]] + parts[1..]
  }

  /** The pieces of each text split on spaces, one text after the other. */
  function SplitAll(texts: seq<string>): seq<string> {
    if texts == [] then [] else SplitOnSpaces(texts[0]) + SplitAll(texts[1..])
  }

  /** Splitting at a space splits each side independently. */
  lemma {:induction false} SplitAtSpace(a: string, b: string)
    ensures SplitOnSpaces(a + " " + b) == SplitOnSpaces(a) + SplitOnSpaces(b)
  {
    if a == [] {
      assert (a + " " + b)[1..] == b;
    } else {
      assert (a + " " + b)[1..] == a[1..] + " " + b;
      SplitAtSpace(a[1..], b);
    }
  }

  /** Joining with single spaces and splitting on spaces gives every piece of
      every text back, in order: the join loses no character of any text and
      adds nothing but separators. */
  lemma {:induction false} SplitJoinIsSplitAll(texts: seq<string>)
    requires |texts| >= 1
    ensures SplitOnSpaces(JoinWithSpaces(texts)) == SplitAll(texts)
  {
    if |texts| == 1 {
      assert SplitAll(texts) == SplitOnSpaces(texts[0]) + SplitAll([]);
    } else {
      SplitAtSpace(texts[0], JoinWithSpaces(texts[1..]));
      SplitJoinIsSplitAll(texts[1..]);
    }
  }

  /** Texts that hold no space are their own pieces. */
  lemma {:induction false} SplitAllSpaceFree(texts: seq<string>)
    requires forall k :: 0 <= k < |texts| ==> ' ' !in texts[k]
    ensures SplitAll(texts) == texts
  {
    if texts != [] {
      SplitAllSpaceFree(texts[1..]);
    }
  }

  /** In particular, texts that hold no space come back unchanged. */
  lemma SplitJoinWithSpaces(texts: seq<string>)
    requires |texts| >= 1 && forall k :: 0 <= k < |texts| ==> ' ' !in texts[k]
    ensures SplitOnSpaces(JoinWithSpaces(texts)) == texts
  {
    SplitJoinIsSplitAll(texts);
    SplitAllSpaceFree(texts);
  }

  /** The join is empty only for no piece or for one empty piece. */
  lemma {:induction false} JoinEmptyIff(texts: seq<string>)
    ensures JoinWithSpaces(texts) == "" <==> |texts| == 0 || (|texts| == 1 && texts[0] == "")
  {
    if |texts| > 1 {
      assert |JoinWithSpaces(texts)| > 0 by {
        assert |texts[0] + " " + JoinWithSpaces(texts[1..])| >= 1;
      }
    }
  }
}
