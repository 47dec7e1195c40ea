/** White space, letter case and substrings of text, as the string methods of the source treat them. */
module Text {
  predicate IsSpace(c: char) {
    '\t' <= c <= '\r' || '\U{1C}' <= c <= ' ' || c == '\U{85}' || c == '\U{A0}'
  }

  predicate IsDigit(c: char) { '0' <= c <= '9' }

  function StripLeft(s: string): string {
    if s != "" && IsSpace(s[0]) then StripLeft(s[1..]) else s
  }

  function StripRight(s: string): string {
    if s != "" && IsSpace(s[|s| - 1]) then StripRight(s[..|s| - 1]) else s
  }

  function Strip(s: string): string { StripRight(StripLeft(s)) }

  function UpperChar(c: char): char {
    if 'a' <= c <= 'z' then (c - 'a') + 'A' else c
  }

  function Upper(s: string): (r: string)
    ensures |r| == |s|
  {
    seq(|s|, i requires 0 <= i < |s| => UpperChar(s[i]))
  }

  /** The characters below 256 that a strip removes. */
  lemma IsSpaceIff(c: char)
    ensures IsSpace(c) <==> c in {'\t', '\n', '\U{0B}', '\U{0C}', '\r', '\U{1C}', '\U{1D}', '\U{1E}', '\U{1F}', ' ', '\U{85}', '\U{A0}'}
  {}

  lemma IsDigitIff(c: char)
    ensures IsDigit(c) <==> c in {'0', '1', '2', '3', '4', '5', '6', '7', '8', '9'}
  {}

  /** Only the small letters change, each to its capital. */
  lemma UpperCharIs(c: char)
    ensures c < 'a' || 'z' < c ==> UpperChar(c) == c
    ensures 'a' <= c <= 'z' ==> 'A' <= UpperChar(c) <= 'Z' && (UpperChar(c) - 'A') as int == (c - 'a') as int
    ensures UpperChar('a') == 'A' && UpperChar('z') == 'Z'
  {}

  /** Stripping leaves the part between the first and the last character that is no space. */
  lemma {:induction false} StripLeftLeaves(s: string)
    ensures exists i :: 0 <= i <= |s| && StripLeft(s) == s[i..] && (forall j :: 0 <= j < i ==> IsSpace(s[j]))
                        && (i < |s| ==> !IsSpace(s[i]))
  {
    hide IsSpace;
    if s != "" && IsSpace(s[0]) {
      StripLeftLeaves(s[1..]);
      var k :| 0 <= k <= |s[1..]| && StripLeft(s[1..]) == s[1..][k..] && (forall j :: 0 <= j < k ==> IsSpace(s[1..][j]))
               && (k < |s[1..]| ==> !IsSpace(s[1..][k]));
      assert s[1..][k..] == s[k + 1..];
      forall j | 0 <= j < k + 1 ensures IsSpace(s[j]) {
        assert j > 0 ==> s[j] == s[1..][j - 1];
      }
    } else {
      assert s[0..] == s;
    }
  }

  lemma {:induction false} StripRightLeaves(s: string)
    ensures exists i :: 0 <= i <= |s| && StripRight(s) == s[..i] && (forall j :: i <= j < |s| ==> IsSpace(s[j]))
                        && (i > 0 ==> !IsSpace(s[i - 1]))
  {
    hide IsSpace;
    if s != "" && IsSpace(s[|s| - 1]) {
      var n := |s| - 1;
      StripRightLeaves(s[..n]);
      var k :| 0 <= k <= n && StripRight(s[..n]) == s[..n][..k] && (forall j :: k <= j < n ==> IsSpace(s[..n][j]))
               && (k > 0 ==> !IsSpace(s[..n][k - 1]));
      assert s[..n][..k] == s[..k];
      forall j | k <= j < |s| ensures IsSpace(s[j]) {
        assert j < n ==> s[j] == s[..n][j];
      }
    } else {
      assert s[..|s|] == s;
    }
  }

  lemma {:induction false} LeftIsStripped(left: string, s: string)
    requires (forall c <- left :: IsSpace(c)) && s != "" && !IsSpace(s[0])
    ensures StripLeft(left + s) == s
  {
    hide IsSpace;
    if left == "" {
      assert left + s == s;
    } else {
      assert left[0] in left && (left + s)[1..] == left[1..] + s;
      LeftIsStripped(left[1..], s);
    }
  }

  lemma {:induction false} RightIsStripped(s: string, right: string)
    requires (forall c <- right :: IsSpace(c)) && s != "" && !IsSpace(s[|s| - 1])
    ensures StripRight(s + right) == s
  {
    hide IsSpace;
    if right == "" {
      assert s + right == s;
    } else {
      var n := |right| - 1;
      assert right[n] in right && (s + right)[..|s| + n] == s + right[..n];
      RightIsStripped(s, right[..n]);
    }
  }

  lemma StrippedIs(left: string, word: string, right: string)
    requires (forall c <- left + right :: IsSpace(c)) && word != "" && !IsSpace(word[0]) && !IsSpace(word[|word| - 1])
    ensures Strip(left + word + right) == word
  {
    hide IsSpace, StripLeft, StripRight;
    assert left + word + right == left + (word + right);
    LeftIsStripped(left, word + right);
    RightIsStripped(word, right);
  }
}
