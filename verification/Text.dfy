/** White space as Unicode's White_Space property has it, and what splitting on it does. */
module Text {
  predicate IsWhitespace(c: char) {
    || '\t' <= c <= '\r' || c == ' ' || c == '\U{0085}' || c == '\U{00A0}' || c == '\U{1680}'
    || '\U{2000}' <= c <= '\U{200A}' || c == '\U{2028}' || c == '\U{2029}' || c == '\U{202F}'
    || c == '\U{205F}' || c == '\U{3000}'
  }

  /** The length of the first word of text that starts with one. */
  function WordLength(s: string): (n: nat)
    ensures n <= |s|
    ensures forall i | 0 <= i < n :: !IsWhitespace(s[i])
    ensures n < |s| ==> IsWhitespace(s[n])
  {
    if s == [] || IsWhitespace(s[0]) then 0 else 1 + WordLength(s[1..])
  }

  /** `split_whitespace`. */
  function Words(s: string): seq<string> {
    if s == [] then []
    else if IsWhitespace(s[0]) then Words(s[1..])
    else [s[..WordLength(s)]] + Words(s[WordLength(s)..])
  }

  function Join(words: seq<string>): string {
    if words == [] then "" else if |words| == 1 then words[0] else words[0] + " " + Join(words[1..])
  }

  predicate IsWord(w: string) {
    w != "" && forall i | 0 <= i < |w| :: !IsWhitespace(w[i])
  }

  /** Words with one space between any two. */
  predicate Collapsed(s: string) {
    && (forall i | 0 <= i < |s| && IsWhitespace(s[i]) :: s[i] == ' ' && 0 < i < |s| - 1 && !IsWhitespace(s[i + 1]))
  }

  lemma {:induction false} WordsAreWords(s: string)
    ensures forall w | w in Words(s) :: IsWord(w)
  {
    if s != [] {
      WordsAreWords(if IsWhitespace(s[0]) then s[1..] else s[WordLength(s)..]);
    }
  }

  lemma WordsOfWord(w: string, rest: string)
    requires IsWord(w) && (rest == "" || IsWhitespace(rest[0]))
    ensures Words(w + rest) == [w] + Words(rest)
  {
    var s := w + rest;
    var n := WordLength(s);
    assert forall i | 0 <= i < |w| :: s[i] == w[i];
    assert rest != "" ==> s[|w|] == rest[0];
    assert n == |w|;
    assert s[..n] == w && s[n..] == rest && s[0] == w[0];
  }

  /** Joining words and splitting again gives the words. */
  lemma {:induction false} WordsOfJoin(words: seq<string>)
    requires forall w | w in words :: IsWord(w)
    ensures Words(Join(words)) == words
  {
    if |words| == 1 {
      WordsOfWord(words[0], "");
      assert words[0] + "" == words[0];
    } else if words != [] {
      var rest := " " + Join(words[1..]);
      assert forall w | w in words[1..] :: w in words;
      WordsOfJoin(words[1..]);
      WordsOfWord(words[0], rest);
      assert words[0] + " " + Join(words[1..]) == words[0] + rest;
      assert rest[1..] == Join(words[1..]);
      assert words == [words[0]] + words[1..];
    }
  }

  lemma {:induction false} JoinIsCollapsed(words: seq<string>)
    requires forall w | w in words :: IsWord(w)
    ensures Collapsed(Join(words)) && (words != [] ==> Join(words) != "" && !IsWhitespace(Join(words)[0]))
  {
    if words != [] {
      assert IsWord(words[0]) by {
        assert words[0] in words;
      }
    }
    if |words| > 1 {
      assert forall w | w in words[1..] :: w in words;
      JoinIsCollapsed(words[1..]);
      var w, rest := words[0], Join(words[1..]);
      var s := w + " " + rest;
      forall i | 0 <= i < |s| && IsWhitespace(s[i])
        ensures s[i] == ' ' && 0 < i < |s| - 1 && !IsWhitespace(s[i + 1])
      {
        if i > |w| {
          assert s[i] == rest[i - |w| - 1];
          assert s[i + 1] == rest[i - |w|];
        }
      }
    }
  }

  lemma CollapsedRest(s: string, n: nat)
    requires Collapsed(s) && n < |s| && IsWhitespace(s[n])
    ensures s[n] == ' ' && n + 1 < |s| && Collapsed(s[n + 1..])
  {
    var next := s[n + 1..];
    assert forall i | 0 <= i < |next| :: next[i] == s[n + 1 + i];
  }

  lemma JoinOne(w: string)
    requires IsWord(w)
    ensures Words(w) == [w] && Join(Words(w)) == w
  {
    WordsOfWord(w, "");
    assert w + "" == w;
  }

  lemma JoinMore(w: string, next: string)
    requires IsWord(w) && Words(next) != [] && Join(Words(next)) == next
    ensures Words(w + (" " + next)) != [] && Join(Words(w + (" " + next))) == w + (" " + next)
  {
    var rest, words := " " + next, Words(next);
    WordsOfWord(w, rest);
    assert rest[1..] == next;
    assert ([w] + words)[1..] == words;
    assert w + " " + next == w + rest;
  }

  /** The first word and what follows it. */
  lemma FirstWord(s: string) returns (w: string, next: string)
    requires Collapsed(s) && s != ""
    ensures IsWord(w) && Collapsed(next) && |next| < |s|
    ensures s == if next == "" then w else w + (" " + next)
  {
    var n := WordLength(s);
    assert !IsWhitespace(s[0]);
    w, next := s[..n], "";
    if n < |s| {
      CollapsedRest(s, n);
      next := s[n + 1..];
    }
  }

  /** Text that is already collapsed is not changed by splitting and joining. */
  lemma {:induction false} JoinWords(s: string)
    requires Collapsed(s)
    ensures Join(Words(s)) == s && (s != "" ==> Words(s) != [])
    decreases |s|
  {
    if s != "" {
      var w, next := FirstWord(s);
      if next == "" {
        JoinOne(w);
      } else {
        JoinWords(next);
        JoinMore(w, next);
      }
    }
  }

  /** The twenty-five characters. */
  lemma WhitespaceMeans(c: char)
    ensures IsWhitespace(c) <==>
            c in ['\t', '\n', '\U{000B}', '\U{000C}', '\r', ' ', '\U{0085}', '\U{00A0}', '\U{1680}',
                  '\U{2000}', '\U{2001}', '\U{2002}', '\U{2003}', '\U{2004}', '\U{2005}', '\U{2006}', '\U{2007}',
                  '\U{2008}', '\U{2009}', '\U{200A}', '\U{2028}', '\U{2029}', '\U{202F}', '\U{205F}', '\U{3000}']
  {
  }
}
