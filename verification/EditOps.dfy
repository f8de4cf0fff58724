/**
 The edit fields' text helpers (`src/editops.rs`): byte offsets into UTF-8 text, clamped down
 to character boundaries. The test for word characters is a parameter.
 */
module EditOps {
  import opened Hex
  import opened Utf8

  type I32 = n: int | -0x8000_0000 <= n <= 0x7FFF_FFFF

  /** `as i32`: the low thirty-two bits, as a signed number. */
  function AsI32(n: nat): (r: I32)
    ensures n <= 0x7FFF_FFFF ==> r == n
  {
    var low := n % 0x1_0000_0000;
    if low <= 0x7FFF_FFFF then low else low - 0x1_0000_0000
  }

  // ----- Clamping -----

  /** The greatest boundary at or below `i`. */
  function Clamped(t: seq<Byte>, i: nat): (r: nat)
    ensures r <= i && r <= |t| && IsBoundary(t, r)
    ensures forall j | r < j <= i && j <= |t| :: !IsBoundary(t, j)
  {
    if i > |t| then |t| else if i == 0 || IsBoundary(t, i) then i else Clamped(t, i - 1)
  }

  method ClampBoundary(t: seq<Byte>, offset: nat) returns (i: nat)
    ensures i == Clamped(t, offset)
  {
    i := if offset < |t| then offset else |t|;
    while i > 0 && !IsBoundary(t, i)
      invariant i <= offset && i <= |t|
      invariant forall j | i < j <= offset && j <= |t| :: !IsBoundary(t, j)
    {
      i := i - 1;
    }
  }

  function NonNegative(i: I32): nat {
    if i < 0 then 0 else i
  }

  function Range(t: seq<Byte>, s: I32, e: I32): (r: (nat, nat))
    ensures r.0 <= r.1 <= |t| && IsBoundary(t, r.0) && IsBoundary(t, r.1)
  {
    var s', e' := Clamped(t, NonNegative(s)), Clamped(t, NonNegative(e));
    if s' <= e' then (s', e') else (e', s')
  }

  // ----- Slice and splice -----

  function Slice(t: seq<Byte>, s: I32, e: I32): seq<Byte> {
    var (lo, hi) := Range(t, s, e);
    t[lo..hi]
  }

  function Spliced(t: seq<Byte>, s: I32, e: I32, ins: seq<Byte>): seq<Byte> {
    var (lo, hi) := Range(t, s, e);
    t[..lo] + ins + t[hi..]
  }

  method Splice(t: seq<Byte>, s: I32, e: I32, ins: seq<Byte>) returns (out: seq<Byte>)
    ensures out == Spliced(t, s, e, ins)
  {
    var (lo, hi) := Range(t, s, e);
    out := [];
    out := out + t[..lo];
    out := out + ins;
    out := out + t[hi..];
  }

  lemma ClampedBoundary(t: seq<Byte>, i: nat)
    requires i <= |t| && IsBoundary(t, i)
    ensures Clamped(t, i) == i
  {
  }

  lemma ValidPieces(a: seq<Byte>, b: seq<Byte>, c: seq<Byte>)
    requires Valid(a) && Valid(b) && Valid(c)
    ensures Valid(a + b + c) && IsBoundary(a + b + c, |a|) && IsBoundary(a + b + c, |a| + |b|)
  {
    ValidConcat(a, b);
    ValidConcat(a + b, c);
    ValidConcat(b, c);
    ValidConcat(a, b + c);
    assert a + b + c == a + (b + c);
  }

  /** Replacing the middle of three valid pieces, addressed by its bounds, by another text. */
  lemma SplicedPieces(a: seq<Byte>, b: seq<Byte>, c: seq<Byte>, lo: I32, hi: I32, ins: seq<Byte>)
    requires Valid(a) && Valid(b) && Valid(c) && lo == |a| && hi == |a| + |b|
    ensures Range(a + b + c, lo, hi) == (|a|, |a| + |b|)
    ensures Slice(a + b + c, lo, hi) == b && Spliced(a + b + c, lo, hi, ins) == a + ins + c
  {
    ValidPieces(a, b, c);
    ClampedBoundary(a + b + c, |a|);
    ClampedBoundary(a + b + c, |a| + |b|);
  }

  /**
   Whatever the offsets, in whatever order, inside or outside the text, on or off a boundary:
   slicing and splicing valid text gives valid text, and splicing the slice back over the
   inserted range restores it.
   */
  lemma SpliceUndone(t: seq<Byte>, s: I32, e: I32, ins: seq<Byte>, lo: I32, end: I32)
    requires Valid(t) && Valid(ins)
    requires lo == Range(t, s, e).0 && end == lo + |ins|
    ensures Valid(Slice(t, s, e)) && Valid(Spliced(t, s, e, ins))
    ensures Slice(Spliced(t, s, e, ins), lo, end) == ins
    ensures Spliced(Spliced(t, s, e, ins), lo, end, Slice(t, s, e)) == t
  {
    var hi := Range(t, s, e).1;
    var front, cut, back := t[..lo], t[lo..hi], t[hi..];
    CutInThree(t, lo, hi);
    BoundaryIff(t, lo);
    BoundaryIff(t, hi);
    ValidSlice(t, lo, hi);
    ValidPieces(front, ins, back);
    SplicedPieces(front, ins, back, lo, end, cut);
  }

  lemma CutInThree(t: seq<Byte>, lo: nat, hi: nat)
    requires lo <= hi <= |t|
    ensures t[..lo] + t[lo..hi] + t[hi..] == t
  {
  }

  // ----- Words -----

  type WordTest = seq<Byte> -> bool

  /** The character that ends at `i` starts at the boundary before. */
  function Before(t: seq<Byte>, i: nat): (p: nat)
    requires 0 < i <= |t|
    ensures p < i && IsBoundary(t, p)
  {
    Clamped(t, i - 1)
  }

  predicate WordBefore(t: seq<Byte>, w: WordTest, i: nat)
    requires i <= |t|
  {
    i > 0 && w(t[Before(t, i)..i])
  }

  predicate WordAt(t: seq<Byte>, w: WordTest, i: nat) {
    CharAt(t, i) && w(t[i..i + Length(t[i])])
  }

  predicate Touches(t: seq<Byte>, w: WordTest, i: nat)
    requires i <= |t|
  {
    WordAt(t, w, i) || WordBefore(t, w, i)
  }

  /** Nothing but word characters from `a` to `b`. */
  predicate AllWord(t: seq<Byte>, w: WordTest, a: nat, b: nat)
    requires a <= b <= |t|
    decreases b - a
  {
    a == b || (WordAt(t, w, a) && a + Length(t[a]) <= b && AllWord(t, w, a + Length(t[a]), b))
  }

  /** `[a, b)` is a run of word characters that no word character extends. */
  ghost predicate MaximalRun(t: seq<Byte>, w: WordTest, a: nat, b: nat) {
    && a <= b <= |t| && IsBoundary(t, a) && IsBoundary(t, b)
    && AllWord(t, w, a, b) && !WordBefore(t, w, a) && !WordAt(t, w, b)
  }

  lemma {:induction false} AllWordJoin(t: seq<Byte>, w: WordTest, a: nat, b: nat, c: nat)
    requires a <= b <= c <= |t| && AllWord(t, w, a, b) && AllWord(t, w, b, c)
    ensures AllWord(t, w, a, c)
    decreases b - a
  {
    if a < b {
      AllWordJoin(t, w, a + Length(t[a]), b, c);
    }
  }

  /** A boundary inside a run cuts it into two runs. */
  lemma {:induction false} AllWordCut(t: seq<Byte>, w: WordTest, a: nat, b: nat, c: nat)
    requires a <= b <= c <= |t| && AllWord(t, w, a, c) && IsBoundary(t, b)
    ensures AllWord(t, w, a, b) && AllWord(t, w, b, c)
    decreases b - a
  {
    if a < b {
      assert a + Length(t[a]) <= b;
      AllWordCut(t, w, a + Length(t[a]), b, c);
    }
  }

  lemma BeforeIsChar(t: seq<Byte>, i: nat)
    requires Valid(t) && 0 < i <= |t| && IsBoundary(t, i)
    ensures CharAt(t, Before(t, i)) && Before(t, i) + Length(t[Before(t, i)]) == i
  {
    CharSpan(t, Before(t, i));
  }

  /** From the clamped offset back over word characters to one that is none; off a word, nowhere. */
  ghost predicate StartFound(t: seq<Byte>, w: WordTest, offset: I32, i: nat) {
    var c := Clamped(t, NonNegative(offset));
    && i <= c && IsBoundary(t, i)
    && if Touches(t, w, c) then AllWord(t, w, i, c) && !WordBefore(t, w, i) else i == c
  }

  /** On over word characters to one that is none; off a word, over the character under the cursor. */
  ghost predicate EndFound(t: seq<Byte>, w: WordTest, offset: I32, i: nat) {
    var c := Clamped(t, NonNegative(offset));
    && c <= i <= |t| && IsBoundary(t, i)
    && if Touches(t, w, c) then AllWord(t, w, c, i) && !WordAt(t, w, i)
       else if c < |t| then CharAt(t, c) && i == c + Length(t[c])
       else i == c
  }

  method WordStart(t: seq<Byte>, w: WordTest, offset: I32) returns (r: I32)
    requires Valid(t)
    ensures exists i: nat :: StartFound(t, w, offset, i) && r == AsI32(i)
  {
    var i := ClampBoundary(t, NonNegative(offset));
    ghost var c := i;
    if !WordAt(t, w, i) && !WordBefore(t, w, i) {
      assert StartFound(t, w, offset, i);
      return AsI32(i);
    }
    while WordBefore(t, w, i)
      invariant i <= c && IsBoundary(t, i) && AllWord(t, w, i, c)
      decreases i
    {
      BeforeIsChar(t, i);
      i := Before(t, i);
    }
    assert StartFound(t, w, offset, i);
    return AsI32(i);
  }

  method WordEnd(t: seq<Byte>, w: WordTest, offset: I32) returns (r: I32)
    requires Valid(t)
    ensures exists i: nat :: EndFound(t, w, offset, i) && r == AsI32(i)
  {
    var i := ClampBoundary(t, NonNegative(offset));
    ghost var c := i;
    if !WordAt(t, w, i) && !WordBefore(t, w, i) {
      if i < |t| {
        CharSpan(t, i);
        i := i + Length(t[i]);
      }
      assert EndFound(t, w, offset, i);
      return AsI32(i);
    }
    while WordAt(t, w, i)
      invariant c <= i <= |t| && IsBoundary(t, i) && AllWord(t, w, c, i)
      decreases |t| - i
    {
      CharSpan(t, i);
      AllWordJoin(t, w, c, i, i + Length(t[i]));
      i := i + Length(t[i]);
    }
    assert EndFound(t, w, offset, i);
    return AsI32(i);
  }

  /** Every character inside a run is a word character, from either side. */
  lemma WordInside(t: seq<Byte>, w: WordTest, a: nat, b: nat, c: nat)
    requires Valid(t) && a <= c <= b <= |t| && IsBoundary(t, a) && IsBoundary(t, c) && AllWord(t, w, a, b)
    ensures a < c ==> WordBefore(t, w, c)
    ensures c < b ==> WordAt(t, w, c)
  {
    AllWordCut(t, w, a, c, b);
    if a < c {
      var p := Before(t, c);
      BeforeIsChar(t, c);
      AllWordCut(t, w, a, p, c);
    }
  }

  /** From any boundary of a maximal run, going back ends at its start. */
  lemma StartOfRun(t: seq<Byte>, w: WordTest, a: nat, b: nat, c: nat, r: nat)
    requires Valid(t) && MaximalRun(t, w, a, b) && a <= c <= b && IsBoundary(t, c)
    requires r <= c && IsBoundary(t, r) && AllWord(t, w, r, c) && !WordBefore(t, w, r)
    ensures r == a
  {
    if a < r {
      WordInside(t, w, a, b, r);
    } else {
      WordInside(t, w, r, c, a);
    }
  }

  lemma EndOfRun(t: seq<Byte>, w: WordTest, a: nat, b: nat, c: nat, r: nat)
    requires Valid(t) && MaximalRun(t, w, a, b) && a <= c <= b && IsBoundary(t, c)
    requires c <= r <= |t| && IsBoundary(t, r) && AllWord(t, w, c, r) && !WordAt(t, w, r)
    ensures r == b
  {
    if r < b {
      WordInside(t, w, a, b, r);
    } else {
      WordInside(t, w, c, r, b);
    }
  }

  /**
   A word is selected whole and from anywhere. If an offset touches a word character, the two
   ends found from it bound a maximal run, not empty; and every offset within the closed range,
   on a boundary or not, finds the same two ends.
   */
  lemma WordSelectedFromAnywhere(t: seq<Byte>, w: WordTest, offset: I32, a: nat, b: nat, other: I32, a': nat, b': nat)
    requires Valid(t) && Touches(t, w, Clamped(t, NonNegative(offset)))
    requires StartFound(t, w, offset, a) && EndFound(t, w, offset, b)
    requires StartFound(t, w, other, a') && EndFound(t, w, other, b')
    ensures a < b && MaximalRun(t, w, a, b)
    ensures a <= other <= b ==> a' == a && b' == b
  {
    var c, c' := Clamped(t, NonNegative(offset)), Clamped(t, NonNegative(other));
    AllWordJoin(t, w, a, c, b);
    if a <= other <= b {
      assert a <= c' <= b;
      WordInside(t, w, a, b, c');
      StartOfRun(t, w, a, b, c', a');
      EndOfRun(t, w, a, b, c', b');
    }
  }

  // ----- Selections -----

  /** The range of a selection: its two ends, clamped, whichever comes first. */
  lemma RangeMeans(t: seq<Byte>, s: I32, e: I32)
    ensures var a, b := Clamped(t, if s < 0 then 0 else s), Clamped(t, if e < 0 then 0 else e);
            Range(t, s, e) == if a <= b then (a, b) else (b, a)
  {
  }

  /** A selection dragged backwards is the same selection. */
  lemma EitherWay(t: seq<Byte>, s: I32, e: I32, ins: seq<Byte>)
    ensures Slice(t, s, e) == Slice(t, e, s)
    ensures Spliced(t, s, e, ins) == Spliced(t, e, s, ins)
    ensures |Spliced(t, s, e, ins)| == |t| - |Slice(t, s, e)| + |ins|
  {
    RangeMeans(t, s, e);
    RangeMeans(t, e, s);
  }

  /** The cast keeps the low thirty-two bits. */
  lemma CastMeans(n: nat)
    ensures (n - AsI32(n)) % 0x1_0000_0000 == 0
  {
    var low, high := n % 0x1_0000_0000, n / 0x1_0000_0000;
    assert n == 0x1_0000_0000 * high + low;
    WholeWords(n - AsI32(n), if low <= 0x7FFF_FFFF then high else high + 1);
  }

  lemma WholeWords(n: int, k: int)
    requires n == 0x1_0000_0000 * k
    ensures n % 0x1_0000_0000 == 0
  {
  }
}
