/** What of a server's error text reaches the screen (`src/util.rs`). */
module NetErr {
  import opened Options
  import opened Text

  const BUSY_WORDS := ["server", "is", "busy", "\U{2014}", "retrying", "shortly"]
  const BLANK_WORDS := ["server", "error", "\U{2014}", "try", "again", "shortly"]
  const BUSY := Join(BUSY_WORDS)
  const BLANK := Join(BLANK_WORDS)
  const MAX_SHOWN := 120

  predicate OpensTag(c: char) {
    'a' <= c <= 'z' || 'A' <= c <= 'Z' || c == '/' || c == '!'
  }

  predicate TagAt(s: string, i: nat) {
    i + 1 < |s| && s[i] == '<' && OpensTag(s[i + 1])
  }

  /** The first `<` that opens a tag. */
  function HtmlTagStart(s: string): (r: Option<nat>)
    ensures r.Some? ==> TagAt(s, r.value) && forall j | 0 <= j < r.value :: !TagAt(s, j)
    ensures r.None? ==> forall j: nat :: !TagAt(s, j)
  {
    TagStartFrom(s, 0)
  }

  function TagStartFrom(s: string, i: nat): (r: Option<nat>)
    requires forall j | 0 <= j < i :: !TagAt(s, j)
    ensures r.Some? ==> TagAt(s, r.value) && forall j | 0 <= j < r.value :: !TagAt(s, j)
    ensures r.None? ==> forall j: nat :: !TagAt(s, j)
    decreases |s| - i
  {
    if i >= |s| then None else if TagAt(s, i) then Some(i) else TagStartFrom(s, i + 1)
  }

  predicate RateLimited(raw: string) {
    "429" <= raw || "http: 429" <= raw
  }

  function BeforeTag(raw: string): string {
    match HtmlTagStart(raw) case Some(i) => raw[..i] case None => raw
  }

  function Shortened(s: string): string {
    if |s| > MAX_SHOWN then s[..MAX_SHOWN] + "..." else s
  }

  function FriendlyNetErr(raw: string): string {
    if RateLimited(raw) then BUSY
    else
      var collapsed := Join(Words(BeforeTag(raw)));
      if collapsed == "" then BLANK else Shortened(collapsed)
  }

  predicate NoTag(s: string) {
    forall i | 0 <= i < |s| - 1 && s[i] == '<' :: !OpensTag(s[i + 1])
  }

  lemma NoTagIff(s: string)
    ensures HtmlTagStart(s).None? <==> NoTag(s)
  {
    if NoTag(s) {
      assert forall j: nat :: !TagAt(s, j);
    } else {
      var i :| 0 <= i < |s| - 1 && s[i] == '<' && OpensTag(s[i + 1]);
      assert TagAt(s, i);
    }
  }

  /** Collapsing white space never brings a `<` next to a letter it did not stand next to. */
  lemma {:induction false} CollapsingOpensNoTag(s: string)
    requires NoTag(s)
    ensures NoTag(Join(Words(s)))
    decreases |s|
  {
    if s != [] {
      if IsWhitespace(s[0]) {
        assert forall i | 0 <= i < |s| - 1 :: s[1..][i] == s[i + 1];
        CollapsingOpensNoTag(s[1..]);
      } else {
        var n := WordLength(s);
        var w, rest := s[..n], s[n..];
        assert forall i | 0 <= i < |rest| :: rest[i] == s[n + i];
        CollapsingOpensNoTag(rest);
        var words := Words(rest);
        assert Words(s)[1..] == words;
        if words != [] {
          var tail := Join(words);
          assert Join(Words(s)) == w + " " + tail;
        }
      }
    }
  }

  lemma ShortenedOpensNoTag(s: string)
    requires NoTag(s)
    ensures NoTag(Shortened(s))
  {
  }

  lemma BeforeTagHasNone(raw: string)
    ensures NoTag(BeforeTag(raw))
  {
    var s := BeforeTag(raw);
    forall i | 0 <= i < |s| - 1 && s[i] == '<'
      ensures !OpensTag(s[i + 1])
    {
      assert !TagAt(raw, i);
    }
  }

  lemma {:induction false} JoinPlain(words: seq<string>)
    requires forall w | w in words :: '<' !in w
    ensures '<' !in Join(words)
  {
    if |words| > 1 {
      assert forall w | w in words[1..] :: w in words;
      JoinPlain(words[1..]);
      assert words[0] in words;
    } else if |words| == 1 {
      assert words[0] in words;
    }
  }

  /** At most eight lower-case letters, or the dash. */
  predicate Plain(w: string) {
    0 < |w| <= 8 && forall i | 0 <= i < |w| :: 'a' <= w[i] <= 'z' || w[i] == '\U{2014}'
  }

  lemma PlainIsWord(w: string)
    requires Plain(w)
    ensures IsWord(w) && '<' !in w
  {
  }

  lemma PlainBusy()
    ensures forall w | w in BUSY_WORDS :: Plain(w)
  {
    assert Plain("server") && Plain("is") && Plain("busy")
      && Plain("\U{2014}") && Plain("retrying") && Plain("shortly");
  }

  lemma PlainBlank()
    ensures forall w | w in BLANK_WORDS :: Plain(w)
  {
    assert Plain("server") && Plain("error") && Plain("\U{2014}") && Plain("try") && Plain("again") && Plain("shortly");
  }

  lemma {:induction false} JoinLength(words: seq<string>)
    requires forall w | w in words :: 0 < |w| <= 8
    ensures |Join(words)| <= 9 * |words|
    ensures words != [] ==> Join(words) != "" && Join(words)[0] == words[0][0]
  {
    if words != [] {
      assert words[0] in words;
    }
    if |words| > 1 {
      assert forall w | w in words[1..] :: w in words;
      JoinLength(words[1..]);
    }
  }

  /** The two fixed answers are words, hold no `<` and do not read as a rate limit. */
  lemma FixedAnswer(words: seq<string>)
    requires words == BUSY_WORDS || words == BLANK_WORDS
    ensures '<' !in Join(words) && 0 < |Join(words)| <= MAX_SHOWN
    ensures Words(Join(words)) == words && !RateLimited(Join(words))
  {
    PlainBusy();
    PlainBlank();
    PlainAnswer(words);
    assert words[0][0] == 's';
  }

  lemma PlainAnswer(words: seq<string>)
    requires forall w | w in words :: Plain(w)
    ensures '<' !in Join(words) && |Join(words)| <= 9 * |words| && Words(Join(words)) == words
    ensures words != [] && words[0] != "" ==> Join(words) != "" && Join(words)[0] == words[0][0]
  {
    forall w | w in words
      ensures IsWord(w) && '<' !in w
    {
      PlainIsWord(w);
    }
    JoinPlain(words);
    JoinLength(words);
    WordsOfJoin(words);
  }

  /** For every server text: something is shown, never more than 123 characters, and no tag. */
  lemma ShownIsClean(raw: string)
    ensures 0 < |FriendlyNetErr(raw)| <= MAX_SHOWN + 3
    ensures HtmlTagStart(FriendlyNetErr(raw)).None?
  {
    NoTagIff(FriendlyNetErr(raw));
    FixedAnswer(BUSY_WORDS);
    FixedAnswer(BLANK_WORDS);
    BeforeTagHasNone(raw);
    CollapsingOpensNoTag(BeforeTag(raw));
    ShortenedOpensNoTag(Join(Words(BeforeTag(raw))));
  }

  /** Text that is no rate limit is shown word for word up to its first tag, and no further
      than its first 120 characters. */
  lemma ShownKeepsWords(raw: string)
    ensures var kept := BeforeTag(raw); kept <= raw && NoTag(kept) && (kept == raw || TagAt(raw, |kept|))
    ensures !RateLimited(raw) && Words(BeforeTag(raw)) != [] ==>
              var kept, r := Join(Words(BeforeTag(raw))), FriendlyNetErr(raw);
              if |kept| <= MAX_SHOWN then Words(r) == Words(BeforeTag(raw)) else r == kept[..MAX_SHOWN] + "..."
  {
    BeforeTagHasNone(raw);
    WordsAreWords(BeforeTag(raw));
    WordsOfJoin(Words(BeforeTag(raw)));
    JoinIsCollapsed(Words(BeforeTag(raw)));
  }

  lemma ShortenedCollapsed(s: string)
    requires Collapsed(s)
    ensures Collapsed(Shortened(s))
  {
    var r := Shortened(s);
    if |s| > MAX_SHOWN {
      assert forall i | 0 <= i < MAX_SHOWN :: r[i] == s[i];
      assert forall i | MAX_SHOWN <= i < |r| :: r[i] == '.';
    }
  }

  /** Showing a shown text changes nothing exactly when the server's text is a rate limit as it
      stands, or is none even with its white space collapsed. Otherwise the second showing
      takes for a rate limit what the first one did not. */
  lemma ShownAgainIff(raw: string)
    ensures var r := FriendlyNetErr(raw);
            var steady := RateLimited(raw) || !RateLimited(Join(Words(BeforeTag(raw))));
            && (FriendlyNetErr(r) == r <==> steady)
            && (!steady ==> FriendlyNetErr(r) == BUSY)
  {
    FixedAnswer(BUSY_WORDS);
    FixedAnswer(BLANK_WORDS);
    ShortenedRateLimited(Join(Words(BeforeTag(raw))));
    if !RateLimited(FriendlyNetErr(raw)) {
      ShownTwice(raw);
    }
  }

  lemma ShortenedRateLimited(s: string)
    ensures RateLimited(Shortened(s)) <==> RateLimited(s)
  {
  }

  lemma ShownTwice(raw: string)
    requires !RateLimited(FriendlyNetErr(raw))
    ensures FriendlyNetErr(FriendlyNetErr(raw)) == FriendlyNetErr(raw)
  {
    var r, s := FriendlyNetErr(raw), Join(Words(BeforeTag(raw)));
    FixedAnswer(BUSY_WORDS);
    FixedAnswer(BLANK_WORDS);
    ShownIsClean(raw);
    assert Join(Words(r)) == r by {
      if r != BUSY && r != BLANK {
        WordsAreWords(BeforeTag(raw));
        JoinIsCollapsed(Words(BeforeTag(raw)));
        ShortenedCollapsed(s);
        JoinWords(r);
      }
    }
    assert |s| > MAX_SHOWN ==> Shortened(Shortened(s)) == Shortened(s);
  }

  /** The failing texts: with a blank before it, whatever reads as a rate limit is shown as it
      is at first, and as a busy server when shown again. */
  lemma BlankBeforeCode(blank: char, words: seq<string>)
    requires IsWhitespace(blank) && (forall w | w in words :: IsWord(w)) && NoTag(Join(words))
    requires RateLimited(Join(words)) && |Join(words)| <= MAX_SHOWN
    ensures var shown := FriendlyNetErr([blank] + Join(words));
            shown == Join(words) && FriendlyNetErr(shown) == BUSY != shown
  {
    var raw := [blank] + Join(words);
    BlankSkipped(blank, Join(words));
    WordsOfJoin(words);
    ShownAsIs(raw);
    ShownAgainIff(raw);
  }

  lemma BlankSkipped(blank: char, text: string)
    requires IsWhitespace(blank) && NoTag(text)
    ensures Words([blank] + text) == Words(text) && NoTag([blank] + text) && !RateLimited([blank] + text)
  {
    var raw := [blank] + text;
    assert raw[1..] == text && raw[0] == blank;
    assert forall i | 0 < i < |raw| :: raw[i] == text[i - 1];
  }

  lemma ShownAsIs(raw: string)
    requires NoTag(raw) && !RateLimited(raw) && 0 < |Join(Words(raw))| <= MAX_SHOWN
    ensures FriendlyNetErr(raw) == Join(Words(raw)) && BeforeTag(raw) == raw
  {
    NoTagIff(raw);
  }

  lemma BlankBefore429()
    ensures FriendlyNetErr(" 429 x") == "429 x" && FriendlyNetErr("429 x") == BUSY != "429 x"
  {
    var words := ["429", "x"];
    assert Join(words) == "429 x" && IsWord("429") && IsWord("x");
    assert [' '] + "429 x" == " 429 x";
    BlankBeforeCode(' ', words);
  }

  // ----- In characters -----

  /** What is shown, exactly: the busy answer, in six words, for text that begins with one of the
      two codes; otherwise the text up to its first tag with white space collapsed, cut at 120
      characters; and the other answer when nothing of it is left. */
  lemma ShownMeans(raw: string)
    ensures "429" <= raw || "http: 429" <= raw ==>
              FriendlyNetErr(raw) == Join(["server", "is", "busy", "\U{2014}", "retrying", "shortly"])
    ensures !("429" <= raw) && !("http: 429" <= raw) ==>
              var kept := Join(Words(BeforeTag(raw)));
              FriendlyNetErr(raw) ==
              if kept == "" then Join(["server", "error", "\U{2014}", "try", "again", "shortly"])
              else if |kept| <= 120 then kept else kept[..120] + "..."
  {
  }

  /** A tag: `<` before a letter, a slash or an exclamation mark. */
  ghost predicate OpensAt(s: string, i: nat) {
    i + 1 < |s| && s[i] == '<' && ('a' <= s[i + 1] <= 'z' || 'A' <= s[i + 1] <= 'Z' || s[i + 1] in ['/', '!'])
  }

  /** The text before the first tag is cut off at a tag and holds none, or is the whole text. */
  lemma CutAtTag(raw: string)
    ensures var kept := BeforeTag(raw);
            kept <= raw && (kept == raw || OpensAt(raw, |kept|)) && forall i: nat | i < |kept| :: !OpensAt(raw, i)
  {
    forall i: nat
      ensures OpensAt(raw, i) <==> TagAt(raw, i)
    {
    }
  }
}
