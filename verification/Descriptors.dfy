/**
 Pulling output descriptors out of pasted text or a wallet export (`src/util.rs`). Text is a
 sequence of characters and offsets count characters.
 */
module Descriptors {
  import opened Options
  import opened Text

  const TR := "tr("
  const WPKH := "wpkh("

  predicate IsDelimiter(c: char) {
    IsWhitespace(c) || c == '"' || c == '\'' || c == ',' || c == '}'
  }

  function TrimStart(s: string): string {
    if s != "" && IsWhitespace(s[0]) then TrimStart(s[1..]) else s
  }

  function TrimEnd(s: string): string {
    if s != "" && IsWhitespace(s[|s| - 1]) then TrimEnd(s[..|s| - 1]) else s
  }

  function Trim(s: string): string {
    TrimEnd(TrimStart(s))
  }

  predicate OccursAt(t: string, pat: string, i: nat) {
    i + |pat| <= |t| && t[i..i + |pat|] == pat
  }

  /** `str::find` from an offset. */
  function Find(t: string, pat: string, from: nat): (r: Option<nat>)
    ensures r.Some? ==> from <= r.value && OccursAt(t, pat, r.value)
    decreases |t| - from
  {
    if from > |t| then None else if OccursAt(t, pat, from) then Some(from) else Find(t, pat, from + 1)
  }

  /** No hit comes before the one found. */
  lemma {:induction false} FindFirst(t: string, pat: string, from: nat, j: nat)
    requires from <= j && OccursAt(t, pat, j)
    ensures Find(t, pat, from).Some? && Find(t, pat, from).value <= j
    decreases |t| - from
  {
    if !OccursAt(t, pat, from) {
      FindFirst(t, pat, from + 1, j);
    }
  }

  /** The first delimiter at or after `i`, or the end of the text. */
  function TokenEnd(t: string, i: nat): (e: nat)
    requires i <= |t|
    ensures i <= e <= |t|
    decreases |t| - i
  {
    if i == |t| || IsDelimiter(t[i]) then i else TokenEnd(t, i + 1)
  }

  lemma {:induction false} TokenEnds(t: string, i: nat)
    requires i <= |t|
    ensures forall j | i <= j < TokenEnd(t, i) :: !IsDelimiter(t[j])
    ensures TokenEnd(t, i) < |t| ==> IsDelimiter(t[TokenEnd(t, i)])
    decreases |t| - i
  {
    if i < |t| && !IsDelimiter(t[i]) {
      TokenEnds(t, i + 1);
    }
  }

  predicate IsPattern(pat: string) {
    pat == TR || pat == WPKH
  }

  lemma PatternFits(t: string, pat: string, i: nat)
    requires IsPattern(pat) && OccursAt(t, pat, i)
    ensures i + |pat| <= TokenEnd(t, i) && |pat| > 0
  {
    TokenEnds(t, i);
    assert t[i..i + |pat|] == pat;
    assert forall k | 0 <= k < |pat| :: t[i + k] == pat[k];
    assert forall k | 0 <= k < |pat| :: !IsDelimiter(pat[k]);
  }

  function AddNew(found: seq<string>, token: string): seq<string> {
    if token in found then found else found + [token]
  }

  /** The scan for one pattern: from each hit the token is taken and the scan goes on behind it. */
  function Scanned(t: string, pat: string, from: nat, found: seq<string>): seq<string>
    requires IsPattern(pat) && from <= |t|
    decreases |t| - from
  {
    match Find(t, pat, from)
    case None => found
    case Some(i) =>
      PatternFits(t, pat, i);
      Scanned(t, pat, TokenEnd(t, i), AddNew(found, t[i..TokenEnd(t, i)]))
  }

  function AllDescriptors(text: string): seq<string> {
    var t := Trim(text);
    var found := Scanned(t, WPKH, 0, Scanned(t, TR, 0, []));
    if found == [] then [t] else found
  }

  lemma ScannedStep(t: string, pat: string, from: nat, found: seq<string>)
    requires IsPattern(pat) && from <= |t| && Find(t, pat, from).Some?
    ensures var i := Find(t, pat, from).value;
            && from <= i < TokenEnd(t, i)
            && Scanned(t, pat, from, found) == Scanned(t, pat, TokenEnd(t, i), AddNew(found, t[i..TokenEnd(t, i)]))
  {
    PatternFits(t, pat, Find(t, pat, from).value);
  }

  method ScanPattern(t: string, pat: string, before: seq<string>) returns (found: seq<string>)
    requires IsPattern(pat)
    ensures found == Scanned(t, pat, 0, before)
  {
    ghost var goal := Scanned(t, pat, 0, before);
    found := before;
    var from := 0;
    var hit := Find(t, pat, from);
    while hit.Some?
      invariant from <= |t| && hit == Find(t, pat, from)
      invariant Scanned(t, pat, from, found) == goal
      decreases |t| - from
    {
      var start := hit.value;
      ScannedStep(t, pat, from, found);
      var stop := TokenEnd(t, start);
      var end := stop - start;
      assert start + end == stop;
      found := AddToken(found, t[start..start + end]);
      from := start + if end > 1 then end else 1;
      assert from == stop && Scanned(t, pat, from, found) == goal;
      hit := Find(t, pat, from);
    }
  }

  method AddToken(found: seq<string>, token: string) returns (r: seq<string>)
    ensures r == AddNew(found, token)
  {
    r := found;
    if token !in r {
      r := r + [token];
    }
  }

  method ExtractAllDescriptors(text: string) returns (found: seq<string>)
    ensures found == AllDescriptors(text)
  {
    var t := Trim(text);
    found := ScanPattern(t, TR, []);
    found := ScanPattern(t, WPKH, found);
    if found == [] {
      found := [t];
    }
  }

  // ----- What is returned -----

  /** A token: from a hit up to the first delimiter. */
  ghost predicate IsToken(t: string, d: string) {
    exists pat, i: nat :: IsPattern(pat) && i <= |t| && OccursAt(t, pat, i) && d == t[i..TokenEnd(t, i)]
  }

  /** The text from `i` to `j` lies inside an occurrence of `d`. */
  ghost predicate Inside(t: string, d: string, i: nat, j: nat) {
    exists s: nat :: s <= i <= j <= s + |d| && OccursAt(t, d, s)
  }

  ghost predicate Covered(t: string, pat: string, i: nat, found: seq<string>) {
    exists d :: d in found && Inside(t, d, i, i + |pat|)
  }

  lemma {:induction false} ScannedKeeps(t: string, pat: string, from: nat, found: seq<string>)
    requires IsPattern(pat) && from <= |t|
    requires AllDifferent(found) && forall d | d in found :: IsToken(t, d)
    ensures var r := Scanned(t, pat, from, found);
            && AllDifferent(r) && (forall d | d in r :: IsToken(t, d)) && (forall d | d in found :: d in r)
    decreases |t| - from
  {
    var hit := Find(t, pat, from);
    if hit.Some? {
      PatternFits(t, pat, hit.value);
      var e := TokenEnd(t, hit.value);
      var token := t[hit.value..e];
      assert IsToken(t, token);
      ScannedKeeps(t, pat, e, AddNew(found, token));
    }
  }

  /** A hit inside the token of an earlier hit of the same pattern ends inside it too. */
  lemma HitInside(t: string, pat: string, i: nat, j: nat)
    requires IsPattern(pat) && OccursAt(t, pat, i) && OccursAt(t, pat, j) && i <= j < TokenEnd(t, i)
    ensures Inside(t, t[i..TokenEnd(t, i)], j, j + |pat|)
  {
    PatternFits(t, pat, j);
    TokenEnds(t, i);
    TokenEnds(t, j);
    var e := TokenEnd(t, i);
    assert TokenEnd(t, j) == e;
    assert OccursAt(t, t[i..e], i);
  }

  lemma TokenCovers(t: string, pat: string, i: nat, token: string, found: seq<string>)
    requires token in found && Inside(t, token, i, i + |pat|)
    ensures Covered(t, pat, i, found)
  {
  }

  lemma {:induction false} ScannedCovers(t: string, pat: string, from: nat, found: seq<string>, j: nat)
    requires IsPattern(pat) && from <= |t| && OccursAt(t, pat, j) && from <= j
    requires AllDifferent(found) && forall d | d in found :: IsToken(t, d)
    ensures Covered(t, pat, j, Scanned(t, pat, from, found))
    decreases |t| - from
  {
    FindFirst(t, pat, from, j);
    var i := Find(t, pat, from).value;
    PatternFits(t, pat, i);
    var e := TokenEnd(t, i);
    var token := t[i..e];
    assert IsToken(t, token);
    ScannedKeeps(t, pat, e, AddNew(found, token));
    if j < e {
      HitInside(t, pat, i, j);
      TokenCovers(t, pat, j, token, Scanned(t, pat, e, AddNew(found, token)));
    } else {
      ScannedCovers(t, pat, e, AddNew(found, token), j);
    }
  }

  ghost predicate AnyHit(t: string) {
    exists pat, i: nat :: IsPattern(pat) && OccursAt(t, pat, i)
  }

  /**
   Without a hit the trimmed text is returned whole. Otherwise what is returned are distinct
   tokens, each running from a hit to the next delimiter with none inside, and every place
   where either pattern stands lies inside one of them.
   */
  lemma DescriptorsComplete(text: string)
    ensures var t := Trim(text);
            var found := AllDescriptors(text);
            if !AnyHit(t) then found == [t]
            else
              && found != [] && AllDifferent(found)
              && (forall d | d in found :: IsToken(t, d))
              && (forall pat, i: nat | IsPattern(pat) && OccursAt(t, pat, i) :: Covered(t, pat, i, found))
  {
    var t := Trim(text);
    var first := Scanned(t, TR, 0, []);
    ScannedKeeps(t, TR, 0, []);
    ScannedKeeps(t, WPKH, 0, first);
    var found := Scanned(t, WPKH, 0, first);
    forall pat, i: nat | IsPattern(pat) && OccursAt(t, pat, i)
      ensures Covered(t, pat, i, found)
    {
      if pat == TR {
        ScannedCovers(t, TR, 0, [], i);
      } else {
        ScannedCovers(t, WPKH, 0, first, i);
      }
    }
    if found != [] {
      assert IsToken(t, found[0]);
    }
  }

  /** A token holds no delimiter and cannot be made longer. */
  lemma TokenMaximal(t: string, d: string)
    requires IsToken(t, d)
    ensures d != "" && (forall c | c in d :: !IsDelimiter(c))
    ensures exists i: nat :: OccursAt(t, d, i) && (i + |d| < |t| ==> IsDelimiter(t[i + |d|]))
  {
    var pat, i: nat :| IsPattern(pat) && i <= |t| && OccursAt(t, pat, i) && d == t[i..TokenEnd(t, i)];
    PatternFits(t, pat, i);
    TokenEnds(t, i);
    assert OccursAt(t, d, i);
  }

  // ----- In characters -----

  /** Trimming takes white space off both ends and nothing else. */
  lemma TrimMeans(text: string)
    ensures exists a, b :: text == a + Trim(text) + b && (forall c | c in a + b :: IsWhitespace(c))
    ensures Trim(text) != "" ==> !IsWhitespace(Trim(text)[0]) && !IsWhitespace(Trim(text)[|Trim(text)| - 1])
  {
    var a := StartOff(text);
    var b := EndOff(TrimStart(text));
    assert text == a + Trim(text) + b;
    assert forall c | c in a + b :: IsWhitespace(c);
  }

  lemma {:induction false} StartOff(s: string) returns (a: string)
    ensures s == a + TrimStart(s) && forall c | c in a :: IsWhitespace(c)
    ensures TrimStart(s) != "" ==> !IsWhitespace(TrimStart(s)[0])
  {
    a := "";
    if s != "" && IsWhitespace(s[0]) {
      var rest := StartOff(s[1..]);
      a := [s[0]] + rest;
    }
  }

  lemma {:induction false} EndOff(s: string) returns (b: string)
    ensures s == TrimEnd(s) + b && forall c | c in b :: IsWhitespace(c)
    ensures TrimEnd(s) <= s && (TrimEnd(s) != "" ==> !IsWhitespace(TrimEnd(s)[|TrimEnd(s)| - 1]))
  {
    b := "";
    if s != "" && IsWhitespace(s[|s| - 1]) {
      var rest := EndOff(s[..|s| - 1]);
      b := rest + [s[|s| - 1]];
    }
  }

  predicate EndsToken(c: char) {
    IsWhitespace(c) || c in ['"', '\'', ',', '}']
  }

  ghost predicate HasPattern(t: string) {
    exists i: nat :: OccursAt(t, "tr(", i) || OccursAt(t, "wpkh(", i)
  }

  /** A token begins with a pattern, holds no quote, comma, closing brace or white space, and stands
      in the text before such a character or the text's end. */
  lemma TokenMeans(t: string, d: string)
    requires IsToken(t, d)
    ensures "tr(" <= d || "wpkh(" <= d
    ensures forall c | c in d :: !EndsToken(c)
    ensures exists i: nat :: OccursAt(t, d, i) && (i + |d| < |t| ==> EndsToken(t[i + |d|]))
  {
    TokenMaximal(t, d);
    TokenBegins(t, d);
  }

  lemma HasPatternIff(t: string)
    ensures AnyHit(t) <==> HasPattern(t)
  {
    assert IsPattern("tr(") && IsPattern("wpkh(");
    if i: nat :| OccursAt(t, "tr(", i) || OccursAt(t, "wpkh(", i) {
      assert OccursAt(t, "tr(", i) || OccursAt(t, "wpkh(", i);
    }
  }

  /** If `tr(` or `wpkh(` stands anywhere in the trimmed text only tokens are returned, otherwise
      the trimmed text. */
  lemma TokensOrText(text: string)
    ensures if HasPattern(Trim(text)) then forall d | d in AllDescriptors(text) :: IsToken(Trim(text), d)
            else AllDescriptors(text) == [Trim(text)]
  {
    HasPatternIff(Trim(text));
    DescriptorsComplete(text);
  }

  lemma TokenBegins(t: string, d: string)
    requires IsToken(t, d)
    ensures "tr(" <= d || "wpkh(" <= d
  {
    var pat, i: nat :| IsPattern(pat) && i <= |t| && OccursAt(t, pat, i) && d == t[i..TokenEnd(t, i)];
    PatternFits(t, pat, i);
    assert d[..|pat|] == t[i..i + |pat|] == pat;
  }

  // ----- Which tokens, and in which order -----

  /** A hit with no hit of the same pattern before it that reaches as far: the first of its run. */
  ghost predicate FirstOfRun(t: string, pat: string, j: nat) {
    OccursAt(t, pat, j) && forall i: nat | i < j && OccursAt(t, pat, i) :: TokenEnd(t, i) <= j
  }

  /** Nothing before `from` reaches beyond it. */
  ghost predicate CleanCut(t: string, pat: string, from: nat)
    requires from <= |t|
  {
    forall i: nat | i < from && OccursAt(t, pat, i) :: TokenEnd(t, i) <= from
  }

  lemma {:induction false} EndGrows(t: string, i: nat, j: nat)
    requires i <= j <= |t|
    ensures j <= TokenEnd(t, i) ==> TokenEnd(t, j) == TokenEnd(t, i)
    ensures TokenEnd(t, i) <= TokenEnd(t, j)
    decreases j - i
  {
    if i < j && !IsDelimiter(t[i]) {
      EndGrows(t, i + 1, j);
    }
  }

  /** What one pass adds: exactly the tokens at the first hits of the runs behind `from`, each once,
      behind what was found before. */
  lemma {:induction false} ScannedExactly(t: string, pat: string, from: nat, found: seq<string>)
    requires IsPattern(pat) && from <= |t| && CleanCut(t, pat, from)
    ensures found <= Scanned(t, pat, from, found)
    ensures forall d :: d in Scanned(t, pat, from, found) <==>
              d in found || exists j: nat :: from <= j && FirstOfRun(t, pat, j) && d == t[j..TokenEnd(t, j)]
    decreases |t| - from
  {
    match Find(t, pat, from) {
      case None => NoMore(t, pat, from);
      case Some(i) =>
        PatternFits(t, pat, i);
        var e := TokenEnd(t, i);
        FirstFound(t, pat, from, i);
        ScannedExactly(t, pat, e, AddNew(found, t[i..e]));
        OneRun(t, pat, from, i);
    }
  }

  lemma NoMore(t: string, pat: string, from: nat)
    requires Find(t, pat, from).None?
    ensures forall j: nat :: from <= j ==> !FirstOfRun(t, pat, j)
  {
    forall j: nat | from <= j && OccursAt(t, pat, j)
      ensures false
    {
      FindFirst(t, pat, from, j);
    }
  }

  lemma FirstFound(t: string, pat: string, from: nat, i: nat)
    requires IsPattern(pat) && from <= |t| && CleanCut(t, pat, from) && Find(t, pat, from) == Some(i)
    ensures FirstOfRun(t, pat, i) && i < |t| && CleanCut(t, pat, TokenEnd(t, i))
  {
    PatternFits(t, pat, i);
    forall k: nat | k < TokenEnd(t, i) && OccursAt(t, pat, k)
      ensures TokenEnd(t, k) <= TokenEnd(t, i) && (k < i ==> TokenEnd(t, k) <= i)
    {
      if k < from {
        assert TokenEnd(t, k) <= from;
      } else {
        FindFirst(t, pat, from, k);
        EndGrows(t, i, k);
      }
    }
  }

  /** The first hits behind `from` are the one at `i` and those behind its token. */
  lemma OneRun(t: string, pat: string, from: nat, i: nat)
    requires IsPattern(pat) && from <= i < |t| && Find(t, pat, from) == Some(i) && FirstOfRun(t, pat, i)
    ensures forall j: nat :: FirstOfRun(t, pat, j) && from <= j ==> j == i || TokenEnd(t, i) <= j
  {
    forall j: nat | FirstOfRun(t, pat, j) && from <= j
      ensures j == i || TokenEnd(t, i) <= j
    {
      FindFirst(t, pat, from, j);
    }
  }

  /** The tokens are exactly those at the first hits of either pattern's runs; those of `tr(` come
      first. */
  lemma TokensExactly(text: string)
    requires HasPattern(Trim(text))
    ensures var t := Trim(text);
            forall d :: d in AllDescriptors(text) <==>
              exists pat, j: nat :: IsPattern(pat) && FirstOfRun(t, pat, j) && d == t[j..TokenEnd(t, j)]
    ensures exists n: nat :: n <= |AllDescriptors(text)|
              && (forall d | d in AllDescriptors(text)[..n] :: "tr(" <= d)
              && (forall d | d in AllDescriptors(text)[n..] :: "wpkh(" <= d)
  {
    var t := Trim(text);
    var first := Scanned(t, TR, 0, []);
    var found := Scanned(t, WPKH, 0, first);
    ScannedExactly(t, TR, 0, []);
    ScannedExactly(t, WPKH, 0, first);
    TokensOrText(text);
    HasPatternIff(t);
    SomeFound(t);
    assert AllDescriptors(text) == found;
    forall d | d in found[..|first|]
      ensures "tr(" <= d
    {
      assert d in first;
      var j: nat :| FirstOfRun(t, TR, j) && d == t[j..TokenEnd(t, j)];
      BeginsWith(t, TR, j);
    }
    ScannedKeeps(t, TR, 0, []);
    ScannedKeeps(t, WPKH, 0, first);
    forall d | d in found[|first|..]
      ensures "wpkh(" <= d
    {
      NewIsNot(first, found, d);
      var j: nat :| FirstOfRun(t, WPKH, j) && d == t[j..TokenEnd(t, j)];
      BeginsWith(t, WPKH, j);
    }
  }

  lemma BeginsWith(t: string, pat: string, j: nat)
    requires IsPattern(pat) && OccursAt(t, pat, j)
    ensures j <= |t| && pat <= t[j..TokenEnd(t, j)]
  {
    PatternFits(t, pat, j);
    assert t[j..TokenEnd(t, j)][..|pat|] == t[j..j + |pat|];
  }

  lemma NewIsNot(first: seq<string>, found: seq<string>, d: string)
    requires first <= found && AllDifferent(found) && d in found[|first|..]
    ensures d in found && d !in first
  {
    var i :| |first| <= i < |found| && found[i] == d;
    assert forall j | 0 <= j < |first| :: first[j] == found[j];
  }

  lemma SomeFound(t: string)
    requires AnyHit(t)
    ensures Scanned(t, WPKH, 0, Scanned(t, TR, 0, [])) != []
  {
    var pat, i: nat :| IsPattern(pat) && OccursAt(t, pat, i);
    var first := Scanned(t, TR, 0, []);
    ScannedKeeps(t, TR, 0, []);
    ScannedKeeps(t, WPKH, 0, first);
    if pat == TR {
      ScannedCovers(t, TR, 0, [], i);
    } else {
      ScannedCovers(t, WPKH, 0, first, i);
    }
  }
}
