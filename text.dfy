/** Characters, video identifiers and literal matching shared by the URL
    validator and the video-id extractor of app.py. */
module Text {

  datatype Option<T> = None | Some(value: T)

  /** Length of a YouTube video identifier: the `{11}` of every pattern. */
  const VideoIdLength: nat := 11

  /** The character class `[A-Za-z0-9_-]` (ASCII ranges, case-sensitive). */
  predicate IsIdChar(c: char) {
    ('a' <= c <= 'z') || ('A' <= c <= 'Z') || ('0' <= c <= '9') || c == '_' || c == '-'
  }

  /** A string that `[A-Za-z0-9_-]{11}` matches in full. */
  predicate IsVideoId(t: string) {
    |t| == VideoIdLength && forall k :: 0 <= k < |t| ==> IsIdChar(t[k])
  }

  /** `[A-Za-z0-9_-]{11}` matches `s` starting at index `k`. */
  predicate IdAt(s: string, k: nat) {
    k + VideoIdLength <= |s| && forall j :: k <= j < k + VideoIdLength ==> IsIdChar(s[j])
  }

  /** The identifier that `IdAt(s, k)` matched. */
  function IdFrom(s: string, k: nat): (t: string)
    requires IdAt(s, k)
    ensures IsVideoId(t) && t <= s[k..]
  {
    s[k..k + VideoIdLength]
  }

  /** The literal `lit` occurs in `s` at index `k`. */
  predicate LiteralAt(s: string, k: nat, lit: string) {
    k + |lit| <= |s| && s[k..k + |lit|] == lit
  }

  /** A prefix made of two parts puts each part at its place. */
  lemma ConcatPrefix(a: string, b: string, s: string)
    requires a + b <= s
    ensures a <= s && LiteralAt(s, |a|, b)
  {
    assert s[..|a|] == (a + b)[..|a|] == a;
    assert s[|a|..|a| + |b|] == (a + b)[|a|..] == b;
  }

  /** Adjacent literals make a prefix. */
  lemma PrefixOfParts(s: string, a: string, b: string)
    requires a <= s && LiteralAt(s, |a|, b)
    ensures a + b <= s
  {
    assert s[..|a| + |b|] == s[..|a|] + s[|a|..|a| + |b|];
  }

  /** An identifier written at index `k` is what `IdAt` matches there. */
  lemma VideoIdAt(s: string, k: nat, id: string)
    requires LiteralAt(s, k, id) && IsVideoId(id)
    ensures IdAt(s, k) && IdFrom(s, k) == id
  {
    forall j | k <= j < k + VideoIdLength
      ensures IsIdChar(s[j])
    {
      assert s[j] == s[k..k + |id|][j - k] == id[j - k];
    }
  }

  /** A character that is not an identifier character inside the eleven
      characters starting at `k` stops `IdAt(s, k)`. */
  lemma NonIdCharBlocksId(s: string, k: nat, j: nat)
    requires k <= j < k + VideoIdLength && j < |s| && !IsIdChar(s[j])
    ensures !IdAt(s, k)
  {
  }
}
