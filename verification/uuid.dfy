/**
 The two pieces of github.com/google/uuid the adapter uses: `FromBytes`, which
 accepts exactly sixteen bytes, and `String`, the canonical 8-4-4-4-12
 lower-case hexadecimal form.
 */
module Uuid {
  import opened Common

  type Uuid = b: seq<byte> | |b| == 16 witness seq(16, i => 0)

  /** `uuid.FromBytes`: fails unless given exactly sixteen bytes. */
  function FromBytes(b: seq<byte>): (r: Option<Uuid>)
    ensures r.Some? <==> |b| == 16
    ensures r.Some? ==> r.value == b
  {
    if |b| == 16 then Some(b) else None
  }

  /** The lower-case hexadecimal digit for a nibble. */
  function HexDigit(d: nat): char
    requires d < 16
  {
    if d < 10 then (d + '0' as int) as char else (d - 10 + 'a' as int) as char
  }

  predicate IsHexDigit(c: char) {
    '0' <= c <= '9' || 'a' <= c <= 'f'
  }

  /** Two lower-case hexadecimal digits per byte, high nibble first. */
  function Hex(bs: seq<byte>): (s: string)
    ensures |s| == 2 * |bs|
    ensures forall i :: 0 <= i < |s| ==> IsHexDigit(s[i])
    decreases |bs|
  {
    if bs == [] then ""
    else [HexDigit(bs[0] / 16), HexDigit(bs[0] % 16)] + Hex(bs[1..])
  }

  /** The value of a lower-case hexadecimal digit; 0 for any other character. */
  function NibbleValue(c: char): (d: nat)
    ensures d < 16
  {
    if 'a' <= c <= 'f' then c as int - 'a' as int + 10
    else if '0' <= c <= '9' then c as int - '0' as int
    else 0
  }

  /** Reads pairs of hexadecimal digits back into bytes; a trailing odd digit is ignored. */
  function Unhex(s: string): seq<byte>
    decreases |s|
  {
    if |s| < 2 then []
    else
      [NibbleValue(s[0]) * 16 + NibbleValue(s[1])] + Unhex(s[2..])
  }

  lemma NibbleRoundTrip(d: nat)
    requires d < 16
    ensures NibbleValue(HexDigit(d)) == d
  {
  }

  /** Hex loses nothing: reading its digits back gives the bytes. */
  lemma {:induction false} HexRoundTrip(bs: seq<byte>)
    ensures Unhex(Hex(bs)) == bs
    decreases |bs|
  {
    if bs != [] {
      var hi, lo := bs[0] / 16, bs[0] % 16;
      var s := Hex(bs);
      assert s == [HexDigit(hi), HexDigit(lo)] + Hex(bs[1..]);
      NibbleRoundTrip(hi);
      NibbleRoundTrip(lo);
      assert NibbleValue(s[0]) * 16 + NibbleValue(s[1]) == bs[0];
      assert s[2..] == Hex(bs[1..]);
      HexRoundTrip(bs[1..]);
      assert Unhex(s) == [bs[0]] + Unhex(s[2..]);
      assert bs == [bs[0]] + bs[1..];
    }
  }

  /** Hex of a concatenation is the concatenation of the hex. */
  lemma {:induction false} HexAppend(a: seq<byte>, b: seq<byte>)
    ensures Hex(a + b) == Hex(a) + Hex(b)
    decreases |a|
  {
    if a != [] {
      assert (a + b)[0] == a[0] && (a + b)[1..] == a[1..] + b;
      HexAppend(a[1..], b);
    } else {
      assert a + b == b;
    }
  }

  /** `uuid.UUID.String`: groups of 4, 2, 2, 2 and 6 bytes separated by dashes. */
  function ToString(u: Uuid): (s: string)
    ensures |s| == 36
    ensures s[8] == '-' && s[13] == '-' && s[18] == '-' && s[23] == '-'
    ensures forall i :: 0 <= i < 36 && i !in {8, 13, 18, 23} ==> IsHexDigit(s[i])
  {
    var s := Hex(u[..4]) + "-" + Hex(u[4..6]) + "-" + Hex(u[6..8]) + "-" + Hex(u[8..10]) + "-" + Hex(u[10..]);
    s
  }

  /** Reads the canonical text form back: the five digit groups without their dashes. */
  function Parse(s: string): seq<byte>
    requires |s| == 36
  {
    Unhex(s[..8] + s[9..13] + s[14..18] + s[19..23] + s[24..])
  }

  /** The text form of a UUID determines it: parsing it gives back the sixteen bytes. */
  lemma ToStringRoundTrip(u: Uuid)
    ensures Parse(ToString(u)) == u
  {
    ToStringGroups(u);
    var a, b, c, d := u[..4], u[4..6], u[6..8], u[8..10];
    HexAppend(a, b);
    HexAppend(a + b, c);
    HexAppend(a + b + c, d);
    HexAppend(a + b + c + d, u[10..]);
    assert a + b + c + d + u[10..] == u;
    HexRoundTrip(u);
  }

  /** Between the dashes of the text form stand the hex digits of the five byte groups. */
  lemma ToStringGroups(u: Uuid)
    ensures var s := ToString(u);
      s[..8] + s[9..13] + s[14..18] + s[19..23] + s[24..]
      == Hex(u[..4]) + Hex(u[4..6]) + Hex(u[6..8]) + Hex(u[8..10]) + Hex(u[10..])
  {
    var s := ToString(u);
    var g1, g2, g3, g4, g5 := Hex(u[..4]), Hex(u[4..6]), Hex(u[6..8]), Hex(u[8..10]), Hex(u[10..]);
    assert s == g1 + "-" + g2 + "-" + g3 + "-" + g4 + "-" + g5;
    assert s[..8] == g1;
    assert s[9..13] == g2;
    assert s[14..18] == g3;
    assert s[19..23] == g4;
    assert s[24..] == g5;
  }
}
