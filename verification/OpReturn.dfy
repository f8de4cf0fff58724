/** OP_RETURN scripts with one push (`notes-core/src/tx.rs`): written for a note's payload, read
    back by scanners and by the confirm screen. */
module OpReturn {
  import opened Options
  import opened Hex

  const OP_RETURN: Byte := 0x6a
  const PUSHDATA1: Byte := 0x4c
  const PUSHDATA2: Byte := 0x4d

  /** The length of a long push is cut to sixteen bits, low byte first. */
  function Script(payload: seq<Byte>): seq<Byte> {
    var n := |payload|;
    [OP_RETURN]
    + (if n <= 75 then [n] else if n <= 255 then [PUSHDATA1, n] else [PUSHDATA2, n % 256, n / 256 % 256])
    + payload
  }

  function IfLong(data: seq<Byte>, n: nat): Option<seq<Byte>> {
    if |data| == n then Some(data) else None
  }

  function Payload(script: seq<Byte>): Option<seq<Byte>> {
    if |script| < 2 || script[0] != OP_RETURN then None
    else
      var n := script[1];
      if 1 <= n <= 75 then IfLong(script[2..], n)
      else if n == PUSHDATA1 then if |script| < 3 then None else IfLong(script[3..], script[2])
      else if n == PUSHDATA2 then
        if |script| < 4 then None else IfLong(script[4..], script[2] as nat + script[3] as nat * 256)
      else None
  }

  /** A payload is read back exactly when it is not empty and its length fits sixteen bits;
      otherwise nothing is read. */
  lemma PayloadRoundTrip(payload: seq<Byte>)
    ensures Payload(Script(payload)) == if 1 <= |payload| <= 0xFFFF then Some(payload) else None
  {
    if |payload| <= 75 {
      ShortPush(payload);
    } else if |payload| <= 255 {
      MediumPush(payload);
    } else {
      LongPush(payload);
    }
  }

  lemma ShortPush(payload: seq<Byte>)
    requires |payload| <= 75
    ensures Payload(Script(payload)) == if payload != [] then Some(payload) else None
  {
    assert Script(payload)[2..] == payload;
  }

  lemma MediumPush(payload: seq<Byte>)
    requires 75 < |payload| <= 255
    ensures Payload(Script(payload)) == Some(payload)
  {
    assert Script(payload)[3..] == payload;
  }

  lemma LongPush(payload: seq<Byte>)
    requires 255 < |payload|
    ensures Payload(Script(payload)) == if |payload| <= 0xFFFF then Some(payload) else None
  {
    var n, s := |payload|, Script(payload);
    assert s[4..] == payload;
    LowBytes(n);
  }

  lemma LowBytes(n: nat)
    ensures n % 256 + n / 256 % 256 * 256 == n % 65536
    ensures n % 65536 == n <==> n <= 0xFFFF
  {
    var low, high := n % 256, n / 256;
    var middle, top := high % 256, high / 256;
    assert n == 256 * high + low && high == 256 * top + middle;
    WordOf(n, top, middle * 256 + low);
  }

  lemma WordOf(n: nat, q: nat, r: nat)
    requires n == 65536 * q + r && r < 65536
    ensures n % 65536 == r
  {
  }

  /** What is read is the end of the script, behind a head of two to four bytes. */
  lemma PayloadIsPushed(script: seq<Byte>)
    ensures Payload(script).Some? ==> exists head :: head + Payload(script).value == script && 2 <= |head| <= 4
  {
    if Payload(script).Some? {
      var k := |script| - |Payload(script).value|;
      assert script[..k] + script[k..] == script;
    }
  }

  /** What is read, exactly: a payload pushed with its length in one byte, up to 75, or behind
      0x4c in one byte, or behind 0x4d in two, low byte first; the shortest push is not asked for. */
  lemma PayloadIff(script: seq<Byte>, p: seq<Byte>)
    ensures Payload(script) == Some(p) <==>
            || (1 <= |p| <= 75 && script == [0x6a, |p|] + p)
            || (|p| <= 255 && script == [0x6a, 0x4c, |p|] + p)
            || (|p| <= 65535 && script == [0x6a, 0x4d, |p| % 256, |p| / 256] + p)
  {
    PushRead(p);
    if Payload(script) == Some(p) {
      var k := |script| - |p|;
      assert script == script[..k] + script[k..];
      assert script[k..] == p;
      assert script[1] <= 75 ==> script[..k] == [0x6a, |p|];
      assert script[1] == 0x4c ==> script[..k] == [0x6a, 0x4c, |p|];
      assert script[1] == 0x4d ==> script[..k] == [0x6a, 0x4d, |p| % 256, |p| / 256];
    }
  }

  lemma PushRead(p: seq<Byte>)
    ensures 1 <= |p| <= 75 ==> Payload([0x6a, |p|] + p) == Some(p)
    ensures |p| <= 255 ==> Payload([0x6a, 0x4c, |p|] + p) == Some(p)
    ensures |p| <= 65535 ==> Payload([0x6a, 0x4d, |p| % 256, |p| / 256] + p) == Some(p)
  {
    assert |p| <= 75 ==> ([0x6a, |p|] + p)[2..] == p;
    assert |p| <= 255 ==> ([0x6a, 0x4c, |p|] + p)[3..] == p;
    assert |p| <= 65535 ==> ([0x6a, 0x4d, |p| % 256, |p| / 256] + p)[4..] == p;
  }

  /** What is written: the shortest of the three. */
  lemma ScriptMeans(p: seq<Byte>)
    ensures Script(p) == (if |p| <= 75 then [0x6a, |p|]
                          else if |p| <= 255 then [0x6a, 0x4c, |p|]
                          else [0x6a, 0x4d, |p| % 256, |p| / 256 % 256]) + p
  {
  }
}
