/** Well-formed UTF-8 (section 4 of RFC 3629) and its character boundaries, by byte index. */
module Utf8 {
  import opened Hex

  predicate Tail(b: Byte) {
    0x80 <= b <= 0xBF
  }

  /** The length a lead byte announces; 0 for a byte that leads nothing. */
  function Length(b: Byte): nat {
    if b <= 0x7F then 1
    else if 0xC2 <= b <= 0xDF then 2
    else if 0xE0 <= b <= 0xEF then 3
    else if 0xF0 <= b <= 0xF4 then 4
    else 0
  }

  /** The second byte rules out overlong forms, surrogates and anything above U+10FFFF. */
  predicate SecondFits(lead: Byte, b: Byte) {
    && Tail(b)
    && (lead == 0xE0 ==> 0xA0 <= b) && (lead == 0xED ==> b <= 0x9F)
    && (lead == 0xF0 ==> 0x90 <= b) && (lead == 0xF4 ==> b <= 0x8F)
  }

  /** One well-formed character stands at `i`. */
  predicate CharAt(t: seq<Byte>, i: nat) {
    && i < |t|
    && var n := Length(t[i]);
       && 0 < n && i + n <= |t|
       && (n >= 2 ==> SecondFits(t[i], t[i + 1]))
       && (n >= 3 ==> Tail(t[i + 2]))
       && (n >= 4 ==> Tail(t[i + 3]))
  }

  /** The bytes from `a` to `b` are characters, one after the other. */
  predicate ValidFrom(t: seq<Byte>, a: nat, b: nat)
    requires a <= b <= |t|
    decreases b - a
  {
    a == b || (CharAt(t, a) && a + Length(t[a]) <= b && ValidFrom(t, a + Length(t[a]), b))
  }

  predicate Valid(t: seq<Byte>) {
    ValidFrom(t, 0, |t|)
  }

  /** `str::is_char_boundary`, which looks at one byte only. */
  predicate IsBoundary(t: seq<Byte>, i: nat) {
    i == 0 || i == |t| || (i < |t| && !Tail(t[i]))
  }

  lemma {:induction false} ValidShift(t: seq<Byte>, a: nat, b: nat, u: seq<Byte>, c: nat)
    requires a <= b <= |t| && c + (b - a) <= |u| && ValidFrom(t, a, b)
    requires t[a..b] == u[c..c + (b - a)]
    ensures ValidFrom(u, c, c + (b - a))
    decreases b - a
  {
    if a < b {
      var n := Length(t[a]);
      assert forall k | a <= k < b :: t[k] == t[a..b][k - a] == u[c..c + (b - a)][k - a] == u[c + (k - a)];
      assert t[a + n..b] == u[c + n..c + (b - a)];
      ValidShift(t, a + n, b, u, c + n);
    }
  }

  lemma {:induction false} ValidJoin(t: seq<Byte>, a: nat, b: nat, c: nat)
    requires a <= b <= c <= |t| && ValidFrom(t, a, b) && ValidFrom(t, b, c)
    ensures ValidFrom(t, a, c)
    decreases b - a
  {
    if a < b {
      ValidJoin(t, a + Length(t[a]), b, c);
    }
  }

  lemma {:induction false} ValidCut(t: seq<Byte>, a: nat, b: nat, c: nat)
    requires a <= b <= c <= |t| && ValidFrom(t, a, c) && (b == a || b == c || !Tail(t[b]))
    ensures ValidFrom(t, a, b) && ValidFrom(t, b, c)
    decreases b - a
  {
    if a < b < c {
      assert a + Length(t[a]) <= b;
      ValidCut(t, a + Length(t[a]), b, c);
    }
  }

  /** The byte test finds exactly the places where a valid text falls into two valid texts. */
  lemma BoundaryIff(t: seq<Byte>, i: nat)
    requires Valid(t) && i <= |t|
    ensures IsBoundary(t, i) <==> Valid(t[..i]) && Valid(t[i..])
  {
    var front, back := t[..i], t[i..];
    assert i < |t| && Valid(back) ==> back[0] == t[i] && !Tail(t[i]);
    if IsBoundary(t, i) {
      ValidCut(t, 0, i, |t|);
      ValidShift(t, 0, i, front, 0);
      assert t[i..|t|] == back[0..|back|];
      ValidShift(t, i, |t|, back, 0);
    }
  }

  /** The character at a boundary ends at the next boundary. */
  lemma CharSpan(t: seq<Byte>, i: nat)
    requires Valid(t) && i < |t| && IsBoundary(t, i)
    ensures CharAt(t, i) && IsBoundary(t, i + Length(t[i]))
    ensures forall j | i < j < i + Length(t[i]) :: !IsBoundary(t, j)
  {
    ValidCut(t, 0, i, |t|);
    var n := Length(t[i]);
    assert i + n < |t| ==> CharAt(t, i + n);
  }

  /** A valid text is valid wherever it stands, and a boundary comes before it. */
  lemma ValidAt(piece: seq<Byte>, t: seq<Byte>, i: nat)
    requires Valid(piece) && i + |piece| <= |t| && t[i..i + |piece|] == piece
    ensures ValidFrom(t, i, i + |piece|)
  {
    assert piece[0..|piece|] == piece;
    ValidShift(piece, 0, |piece|, t, i);
  }

  lemma ValidLeads(t: seq<Byte>, a: nat, b: nat)
    requires a < b <= |t| && ValidFrom(t, a, b)
    ensures !Tail(t[a])
  {
  }

  /** Text put together from valid pieces is valid, and each seam is a boundary. */
  lemma ValidConcat(a: seq<Byte>, b: seq<Byte>)
    requires Valid(a) && Valid(b)
    ensures Valid(a + b) && IsBoundary(a + b, |a|)
  {
    var t := a + b;
    assert t[0..|a|] == a && t[|a|..|t|] == b;
    ValidAt(a, t, 0);
    ValidAt(b, t, |a|);
    ValidJoin(t, 0, |a|, |t|);
    if b != [] {
      ValidLeads(t, |a|, |t|);
    }
  }

  lemma ValidSlice(t: seq<Byte>, a: nat, b: nat)
    requires Valid(t) && a <= b <= |t| && IsBoundary(t, a) && IsBoundary(t, b)
    ensures ValidFrom(t, a, b) && Valid(t[a..b])
  {
    ValidCut(t, 0, a, |t|);
    ValidCut(t, a, b, |t|);
    assert t[a..b] == t[a..b][0..b - a];
    ValidShift(t, a, b, t[a..b], 0);
  }
}
