/**
 Hexadecimal text as the stores keep it. A txid is displayed with its bytes reversed, so the
 builders reverse what they decode and the recorders reverse again before they encode.
 */
module Hex {
  import opened Options

  type Byte = n: nat | n < 256

  const TXID_BYTES := 32

  /** Either case is read. */
  function DigitValue(c: char): (r: Option<nat>)
    ensures r.Some? ==> r.value < 16
  {
    if '0' <= c <= '9' then Some((c - '0') as nat)
    else if 'a' <= c <= 'f' then Some((c - 'a') as nat + 10)
    else if 'A' <= c <= 'F' then Some((c - 'A') as nat + 10)
    else None
  }

  function LowerDigit(c: char): char {
    if 'A' <= c <= 'F' then c - 'A' + 'a' else c
  }

  function Digit(n: nat): (c: char)
    requires n < 16
    ensures DigitValue(c) == Some(n) && LowerDigit(c) == c
  {
    if n < 10 then '0' + n as char else 'a' + (n - 10) as char
  }

  function Encode(b: seq<Byte>): string {
    if b == [] then "" else [Digit(b[0] / 16), Digit(b[0] % 16)] + Encode(b[1..])
  }

  function Decode(s: string): Option<seq<Byte>> {
    if s == [] then Some([])
    else if |s| == 1 then None
    else
      match (DigitValue(s[0]), DigitValue(s[1]), Decode(s[2..]))
      case (Some(high), Some(low), Some(rest)) => Some([16 * high + low] + rest)
      case _ => None
  }

  function Lower(s: string): (r: string)
    ensures |r| == |s|
  {
    seq(|s|, i requires 0 <= i < |s| => LowerDigit(s[i]))
  }

  function Reversed(b: seq<Byte>): seq<Byte> {
    seq(|b|, i requires 0 <= i < |b| => b[|b| - 1 - i])
  }

  /** `hex::decode_to_slice` into 32 bytes, reversed. */
  function TxidBytes(s: string): Option<seq<Byte>> {
    match Decode(s)
    case Some(b) => if |b| == TXID_BYTES then Some(Reversed(b)) else None
    case None => None
  }

  function TxidText(b: seq<Byte>): string {
    Encode(Reversed(b))
  }

  lemma {:induction false} DecodesIff(s: string)
    ensures Decode(s).Some? <==> |s| % 2 == 0 && forall c | c in s :: DigitValue(c).Some?
    ensures Decode(s).Some? ==> 2 * |Decode(s).value| == |s|
  {
    if |s| >= 2 {
      DecodesIff(s[2..]);
      assert s == [s[0], s[1]] + s[2..];
    }
  }

  lemma DigitOfValue(c: char)
    requires DigitValue(c).Some?
    ensures Digit(DigitValue(c).value) == LowerDigit(c)
  {
  }

  lemma {:induction false} DecodeEncode(b: seq<Byte>)
    ensures Decode(Encode(b)) == Some(b)
  {
    if b != [] {
      DecodeEncode(b[1..]);
      var text := Encode(b);
      assert text[2..] == Encode(b[1..]);
      assert 16 * (b[0] / 16) + b[0] % 16 == b[0];
      assert b == [b[0]] + b[1..];
    }
  }

  lemma {:induction false} EncodeDecode(s: string)
    requires Decode(s).Some?
    ensures Encode(Decode(s).value) == Lower(s)
  {
    if s != [] {
      EncodeDecode(s[2..]);
      DigitOfValue(s[0]);
      DigitOfValue(s[1]);
      var b := Decode(s).value;
      var high, low := DigitValue(s[0]).value, DigitValue(s[1]).value;
      assert b == [16 * high + low] + Decode(s[2..]).value;
      assert b[0] / 16 == high && b[0] % 16 == low;
      assert b[1..] == Decode(s[2..]).value;
      assert Lower(s) == [LowerDigit(s[0]), LowerDigit(s[1])] + Lower(s[2..]);
    }
  }

  /** Recording a spent outpoint and building from it again gives the same bytes; building from
      a stored txid and recording gives the same text, in lower case; nothing but 64 digits is read. */
  lemma TxidRoundTrip(b: seq<Byte>, s: string)
    ensures |b| == TXID_BYTES ==> TxidBytes(TxidText(b)) == Some(b)
    ensures TxidBytes(s).Some? <==> |s| == 2 * TXID_BYTES && forall c | c in s :: DigitValue(c).Some?
    ensures TxidBytes(s).Some? ==> TxidText(TxidBytes(s).value) == Lower(s)
  {
    DecodeEncode(Reversed(b));
    assert Reversed(Reversed(b)) == b;
    DecodesIff(s);
    if TxidBytes(s).Some? {
      EncodeDecode(s);
      assert Reversed(TxidBytes(s).value) == Decode(s).value;
    }
  }

  // ----- In characters and bytes -----

  /** A digit is worth its place among the sixteen, in either case; no other character is a digit. */
  lemma DigitMeans(c: char)
    ensures var lower, upper := "0123456789abcdef", "0123456789ABCDEF";
            && (DigitValue(c).Some? <==> c in lower || c in upper)
            && (DigitValue(c).Some? ==> lower[DigitValue(c).value] == c || upper[DigitValue(c).value] == c)
  {
    var lower, upper := "0123456789abcdef", "0123456789ABCDEF";
    if DigitValue(c).Some? {
      assert lower[DigitValue(c).value] == c || upper[DigitValue(c).value] == c;
    }
  }

  /** Each byte is two digits, the high one first. */
  lemma {:induction false} DecodedByte(s: string, i: nat)
    requires Decode(s).Some? && i < |Decode(s).value|
    ensures 2 * i + 1 < |s| && DigitValue(s[2 * i]).Some? && DigitValue(s[2 * i + 1]).Some?
    ensures Decode(s).value[i] == 16 * DigitValue(s[2 * i]).value + DigitValue(s[2 * i + 1]).value
  {
    if i > 0 {
      DecodedByte(s[2..], i - 1);
      assert Decode(s).value[1..] == Decode(s[2..]).value;
    }
  }

  /** A txid is read from 64 digits, the last byte of the text first. */
  lemma TxidReversed(s: string)
    ensures TxidBytes(s).Some? <==> |s| == 64 && forall c | c in s :: DigitValue(c).Some?
    ensures TxidBytes(s).Some? ==>
              && Decode(s).Some? && |Decode(s).value| == |TxidBytes(s).value| == 32
              && forall i | 0 <= i < 32 :: TxidBytes(s).value[i] == Decode(s).value[31 - i]
  {
    DecodesIff(s);
  }
}
