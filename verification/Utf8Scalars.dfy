/** Well-formed UTF-8 against the encoding itself (section 3 of RFC 3629). */
module Utf8Scalars {
  import opened Hex
  import opened Utf8

  /** A code point that is no surrogate. */
  predicate Scalar(n: nat) {
    n < 0xD800 || 0xE000 <= n <= 0x10FFFF
  }

  function Encoding(n: nat): (r: seq<Byte>)
    requires Scalar(n)
    ensures 1 <= |r| <= 4
  {
    if n < 0x80 then [n]
    else if n < 0x800 then [0xC0 + n / 64, 0x80 + n % 64]
    else if n < 0x1_0000 then [0xE0 + n / 4096, 0x80 + n / 64 % 64, 0x80 + n % 64]
    else [0xF0 + n / 262144, 0x80 + n / 4096 % 64, 0x80 + n / 64 % 64, 0x80 + n % 64]
  }

  function Text(ns: seq<nat>): seq<Byte>
    requires forall i | 0 <= i < |ns| :: Scalar(ns[i])
  {
    if ns == [] then [] else Encoding(ns[0]) + Text(ns[1..])
  }

  ghost predicate StandsAt(t: seq<Byte>, i: nat, n: nat) {
    Scalar(n) && i + |Encoding(n)| <= |t| && t[i..i + |Encoding(n)|] == Encoding(n)
  }

  // ----- One character -----

  lemma Digits(n: nat)
    ensures n == 64 * (n / 64) + n % 64
    ensures n / 4096 == n / 64 / 64 && n / 262144 == n / 64 / 64 / 64
  {
    var a := n / 64;
    var b := a / 64;
    var c := b / 64;
    var x, y, z := n % 64, a % 64, b % 64;
    assert n == 4096 * b + (64 * y + x) && n == 262144 * c + (4096 * z + 64 * y + x);
  }

  /** The bytes of an encoding lead and follow as they should. */
  lemma EncodingIsChar(n: nat)
    requires Scalar(n)
    ensures CharAt(Encoding(n), 0) && Length(Encoding(n)[0]) == |Encoding(n)|
  {
    Digits(n);
  }

  /** The code point a character stands for. */
  function Read(t: seq<Byte>, i: nat): nat
    requires CharAt(t, i)
  {
    var a: nat := t[i];
    match Length(t[i])
    case 1 => a
    case 2 => 64 * (a - 0xC0) + Six(t[i + 1])
    case 3 => 4096 * (a - 0xE0) + 64 * Six(t[i + 1]) + Six(t[i + 2])
    case _ => 262144 * (a - 0xF0) + 4096 * Six(t[i + 1]) + 64 * Six(t[i + 2]) + Six(t[i + 3])
  }

  /** The six bits a following byte carries. */
  function Six(b: Byte): (n: nat)
    requires Tail(b)
    ensures n < 64 && b == 0x80 + n
  {
    var n: nat := b;
    n - 0x80
  }

  lemma Parts(a: nat, b: nat, c: nat, d: nat)
    requires b < 64 && c < 64 && d < 64
    ensures var n := 262144 * a + 4096 * b + 64 * c + d;
            n % 64 == d && n / 64 % 64 == c && n / 4096 % 64 == b && n / 262144 == a
  {
    var n := 262144 * a + 4096 * b + 64 * c + d;
    assert n / 64 == 4096 * a + 64 * b + c;
    assert n / 4096 == 64 * a + b;
  }

  lemma ReadIsThere(t: seq<Byte>, i: nat)
    requires CharAt(t, i)
    ensures StandsAt(t, i, Read(t, i)) && |Encoding(Read(t, i))| == Length(t[i])
  {
    var n, k := Read(t, i), Length(t[i]);
    var a: nat := t[i];
    if k == 2 {
      Parts(0, 0, a - 0xC0, Six(t[i + 1]));
    } else if k == 3 {
      Parts(0, a - 0xE0, Six(t[i + 1]), Six(t[i + 2]));
    } else if k == 4 {
      Parts(a - 0xF0, Six(t[i + 1]), Six(t[i + 2]), Six(t[i + 3]));
    }
    assert t[i..i + k] == Encoding(n);
  }

  /** A character stands at `i` exactly when the encoding of some scalar value does. */
  lemma CharIff(t: seq<Byte>, i: nat)
    ensures CharAt(t, i) <==> exists n :: StandsAt(t, i, n)
  {
    if CharAt(t, i) {
      ReadIsThere(t, i);
    }
    if n :| StandsAt(t, i, n) {
      var e := Encoding(n);
      EncodingIsChar(n);
      assert forall j | 0 <= j < |e| :: t[i + j] == e[j];
    }
  }

  // ----- The whole text -----

  lemma {:induction false} ReadAll(t: seq<Byte>, i: nat) returns (ns: seq<nat>)
    requires i <= |t| && ValidFrom(t, i, |t|)
    ensures (forall k | 0 <= k < |ns| :: Scalar(ns[k])) && Text(ns) == t[i..]
    decreases |t| - i
  {
    if i == |t| {
      return [];
    }
    ReadIsThere(t, i);
    var n := Read(t, i);
    var rest := ReadAll(t, i + Length(t[i]));
    ns := [n] + rest;
    assert ns[1..] == rest;
    CutAt(t, i, i + Length(t[i]));
  }

  lemma CutAt(t: seq<Byte>, i: nat, j: nat)
    requires i <= j <= |t|
    ensures t[i..] == t[i..j] + t[j..]
  {
  }

  lemma {:induction false} TextIsValid(ns: seq<nat>)
    requires forall i | 0 <= i < |ns| :: Scalar(ns[i])
    ensures Valid(Text(ns))
  {
    if ns != [] {
      var e := Encoding(ns[0]);
      EncodingIsChar(ns[0]);
      TextIsValid(ns[1..]);
      ValidConcat(e, Text(ns[1..]));
    }
  }

  /** A byte sequence is valid exactly when it is the encoding of some scalar values. */
  lemma ValidIff(t: seq<Byte>)
    ensures Valid(t) <==> exists ns: seq<nat> :: (forall i | 0 <= i < |ns| :: Scalar(ns[i])) && Text(ns) == t
  {
    if Valid(t) {
      var ns := ReadAll(t, 0);
      assert t[0..] == t;
    }
    if ns: seq<nat> :| (forall i | 0 <= i < |ns| :: Scalar(ns[i])) && Text(ns) == t {
      TextIsValid(ns);
    }
  }
}
