/** The URL-safe base64 alphabet of section 5 of RFC 4648 as used for session
    tokens: `base64.urlsafe_b64encode(b).rstrip(b"=")`. */
module Base64Url {

  newtype byte = x: int | 0 <= x < 256

  /** The characters of the URL- and filename-safe alphabet. */
  predicate IsUrlChar(c: char) {
    'A' <= c <= 'Z' || 'a' <= c <= 'z' || '0' <= c <= '9' || c == '-' || c == '_'
  }

  /** Table 2 of section 5 of RFC 4648: the character of a 6-bit value. */
  function Sextet(v: nat): (c: char)
    requires v < 64
    ensures IsUrlChar(c)
  {
    if v < 26 then ('A' as int + v) as char
    else if v < 52 then ('a' as int + (v - 26)) as char
    else if v < 62 then ('0' as int + (v - 52)) as char
    else if v == 62 then '-'
    else '_'
  }

  /** The 6-bit value of an alphabet character. */
  function SextetValue(c: char): (v: nat)
    requires IsUrlChar(c)
    ensures v < 64 && Sextet(v) == c
  {
    if 'A' <= c <= 'Z' then c as int - 'A' as int
    else if 'a' <= c <= 'z' then c as int - 'a' as int + 26
    else if '0' <= c <= '9' then c as int - '0' as int + 52
    else if c == '-' then 62
    else 63
  }

  lemma SextetInjective(v: nat)
    requires v < 64
    ensures SextetValue(Sextet(v)) == v
  {
  }

  /** Three bytes as four characters. */
  function Quad(b0: byte, b1: byte, b2: byte): string {
    [Sextet(b0 as nat / 4), Sextet((b0 as nat % 4) * 16 + b1 as nat / 16),
     Sextet((b1 as nat % 16) * 4 + b2 as nat / 64), Sextet(b2 as nat % 64)]
  }

  /** A final group of two bytes: three characters. */
  function Triple(b0: byte, b1: byte): string {
    [Sextet(b0 as nat / 4), Sextet((b0 as nat % 4) * 16 + b1 as nat / 16),
     Sextet((b1 as nat % 16) * 4)]
  }

  /** A final group of one byte: two characters. */
  function Pair(b0: byte): string {
    [Sextet(b0 as nat / 4), Sextet((b0 as nat % 4) * 16)]
  }

  /** `urlsafe_b64encode`: groups of three bytes, the last group padded with '='. */
  function Padded(bs: seq<byte>): (s: string)
    ensures |s| == 4 * ((|bs| + 2) / 3)
  {
    if |bs| == 0 then ""
    else if |bs| == 1 then Pair(bs[0]) + "=="
    else if |bs| == 2 then Triple(bs[0], bs[1]) + "="
    else
      assert (|bs| + 2) / 3 == (|bs[3..]| + 2) / 3 + 1;
      Quad(bs[0], bs[1], bs[2]) + Padded(bs[3..])
  }

  /** `.rstrip("=")` */
  function StripPadding(s: string): (r: string)
    ensures |r| <= |s| && r == s[..|r|]
    ensures |r| > 0 ==> r[|r| - 1] != '='
    ensures forall i :: |r| <= i < |s| ==> s[i] == '='
  {
    if |s| == 0 || s[|s| - 1] != '=' then s else StripPadding(s[..|s| - 1])
  }

  /** The encoding without padding, group by group. */
  function Unpadded(bs: seq<byte>): (s: string)
    ensures forall i :: 0 <= i < |s| ==> IsUrlChar(s[i])
  {
    if |bs| == 0 then ""
    else if |bs| == 1 then Pair(bs[0])
    else if |bs| == 2 then Triple(bs[0], bs[1])
    else Quad(bs[0], bs[1], bs[2]) + Unpadded(bs[3..])
  }

  /** The token text: `urlsafe_b64encode(bs).rstrip(b"=").decode("ascii")`. */
  function TokenText(bs: seq<byte>): string {
    StripPadding(Padded(bs))
  }

  /** Stripping the padding leaves exactly the unpadded encoding: only
      alphabet characters, ceil(4n/3) of them. */
  lemma {:induction false} TokenTextUnpadded(bs: seq<byte>)
    ensures TokenText(bs) == Unpadded(bs)
  {
    var u := Unpadded(bs);
    var pad := Padded(bs);
    PaddedIsUnpaddedPlusPad(bs);
    assert pad == u + pad[|u|..];
    StripPadOf(u, pad[|u|..]);
  }

  lemma {:induction false} PaddedIsUnpaddedPlusPad(bs: seq<byte>)
    ensures var u := Unpadded(bs);
      |u| <= |Padded(bs)| && Padded(bs)[..|u|] == u
      && forall i :: |u| <= i < |Padded(bs)| ==> Padded(bs)[i] == '='
  {
    if |bs| >= 3 {
      PaddedIsUnpaddedPlusPad(bs[3..]);
      var q := Quad(bs[0], bs[1], bs[2]);
      var u', p' := Unpadded(bs[3..]), Padded(bs[3..]);
      assert Unpadded(bs) == q + u';
      assert Padded(bs) == q + p';
      forall i | |q + u'| <= i < |q + p'|
        ensures (q + p')[i] == '='
      {
        assert (q + p')[i] == p'[i - 4];
      }
      assert (q + p')[..|q + u'|] == q + p'[..|u'|];
    }
  }

  lemma StripPadOf(u: string, pad: string)
    requires |u| == 0 || u[|u| - 1] != '='
    requires forall i :: 0 <= i < |pad| ==> pad[i] == '='
    ensures StripPadding(u + pad) == u
    decreases |pad|
  {
    if |pad| > 0 {
      assert (u + pad)[..|u + pad| - 1] == u + pad[..|pad| - 1];
      StripPadOf(u, pad[..|pad| - 1]);
    } else {
      assert u + pad == u;
    }
  }

  /** Reading the unpadded text back, four characters to three bytes. */
  function Decode(s: string): (bs: seq<byte>)
    requires forall i :: 0 <= i < |s| ==> IsUrlChar(s[i])
  {
    if |s| < 2 then []
    else if |s| < 4 then DecodeTail(s)
    else DecodeQuad(s[0], s[1], s[2], s[3]) + Decode(s[4..])
  }

  /** Four characters back to three bytes. */
  function DecodeQuad(c0: char, c1: char, c2: char, c3: char): seq<byte>
    requires IsUrlChar(c0) && IsUrlChar(c1) && IsUrlChar(c2) && IsUrlChar(c3)
  {
    [(SextetValue(c0) * 4 + SextetValue(c1) / 16) as byte,
     ((SextetValue(c1) % 16) * 16 + SextetValue(c2) / 4) as byte,
     ((SextetValue(c2) % 4) * 64 + SextetValue(c3)) as byte]
  }

  /** A final group of two or three characters back to one or two bytes. */
  function DecodeTail(s: string): seq<byte>
    requires forall i :: 0 <= i < |s| ==> IsUrlChar(s[i])
    requires 2 <= |s| <= 3
  {
    var b0 := (SextetValue(s[0]) * 4 + SextetValue(s[1]) / 16) as byte;
    if |s| == 2 then [b0]
    else [b0, ((SextetValue(s[1]) % 16) * 16 + SextetValue(s[2]) / 4) as byte]
  }

  /** The token text determines the bytes: decoding gives them back. */
  lemma {:induction false} DecodeUnpadded(bs: seq<byte>)
    ensures Decode(Unpadded(bs)) == bs
  {
    if |bs| == 1 {
      assert bs == [bs[0]];
      DecodeOne(bs[0]);
    } else if |bs| == 2 {
      assert bs == [bs[0], bs[1]];
      DecodeTwo(bs[0], bs[1]);
    } else if |bs| >= 3 {
      DecodeUnpadded(bs[3..]);
      DecodeStep(bs);
    }
  }

  lemma DecodeStep(bs: seq<byte>)
    requires |bs| >= 3
    requires Decode(Unpadded(bs[3..])) == bs[3..]
    ensures Decode(Unpadded(bs)) == bs
  {
    var q := Quad(bs[0], bs[1], bs[2]);
    assert Unpadded(bs) == q + Unpadded(bs[3..]);
    DecodeCons(q, Unpadded(bs[3..]));
    QuadDecodes(bs[0], bs[1], bs[2]);
    Regroup(bs, DecodeQuad(q[0], q[1], q[2], q[3]), Decode(Unpadded(bs[3..])));
  }

  lemma Regroup(bs: seq<byte>, head: seq<byte>, tail: seq<byte>)
    requires |bs| >= 3 && head == [bs[0], bs[1], bs[2]] && tail == bs[3..]
    ensures head + tail == bs
  {
  }

  /** Decoding takes the first four characters as one group. */
  lemma DecodeCons(q: string, t: string)
    requires |q| == 4
    requires forall i :: 0 <= i < |q| ==> IsUrlChar(q[i])
    requires forall i :: 0 <= i < |t| ==> IsUrlChar(t[i])
    ensures forall i :: 0 <= i < |q + t| ==> IsUrlChar((q + t)[i])
    ensures Decode(q + t) == DecodeQuad(q[0], q[1], q[2], q[3]) + Decode(t)
  {
    var s := q + t;
    assert forall i :: 0 <= i < |s| ==> s[i] == if i < 4 then q[i] else t[i - 4];
    assert s[4..] == t;
    assert s[0] == q[0] && s[1] == q[1] && s[2] == q[2] && s[3] == q[3];
  }

  /** ceil(4n/3) characters for n bytes. */
  lemma {:induction false} UnpaddedLength(bs: seq<byte>)
    ensures |Unpadded(bs)| == (4 * |bs| + 2) / 3
  {
    if |bs| >= 3 {
      UnpaddedLength(bs[3..]);
      assert (4 * |bs| + 2) / 3 == (4 * |bs[3..]| + 2) / 3 + 4;
    }
  }

  lemma DecodeOne(b0: byte)
    ensures DecodeTail(Pair(b0)) == [b0]
  {
    SextetInjective(b0 as nat / 4);
    SextetInjective((b0 as nat % 4) * 16);
  }

  lemma DecodeTwo(b0: byte, b1: byte)
    ensures DecodeTail(Triple(b0, b1)) == [b0, b1]
  {
    SextetInjective(b0 as nat / 4);
    SextetInjective((b0 as nat % 4) * 16 + b1 as nat / 16);
    SextetInjective((b1 as nat % 16) * 4);
  }

  lemma QuadDecodes(b0: byte, b1: byte, b2: byte)
    ensures var q := Quad(b0, b1, b2); DecodeQuad(q[0], q[1], q[2], q[3]) == [b0, b1, b2]
  {
    var v0, v1 := b0 as nat / 4, (b0 as nat % 4) * 16 + b1 as nat / 16;
    var v2, v3 := (b1 as nat % 16) * 4 + b2 as nat / 64, b2 as nat % 64;
    SextetInjective(v0);
    SextetInjective(v1);
    SextetInjective(v2);
    SextetInjective(v3);
    ByteBack0(b0 as nat, b1 as nat);
    ByteBack1(b0 as nat, b1 as nat, b2 as nat);
    ByteBack2(b1 as nat, b2 as nat);
  }

  /** The arithmetic of the three bytes spread over four sextets, one byte at a time. */
  lemma ByteBack0(x0: nat, x1: nat)
    requires x0 < 256 && x1 < 256
    ensures (x0 / 4) * 4 + ((x0 % 4) * 16 + x1 / 16) / 16 == x0
  {
  }

  lemma ByteBack1(x0: nat, x1: nat, x2: nat)
    requires x0 < 256 && x1 < 256 && x2 < 256
    ensures (((x0 % 4) * 16 + x1 / 16) % 16) * 16 + ((x1 % 16) * 4 + x2 / 64) / 4 == x1
  {
    var hi, lo := x1 / 16, x1 % 16;
    assert ((x0 % 4) * 16 + hi) % 16 == hi;
    assert (lo * 4 + x2 / 64) / 4 == lo;
    assert hi * 16 + lo == x1;
  }

  lemma ByteBack2(x1: nat, x2: nat)
    requires x1 < 256 && x2 < 256
    ensures (((x1 % 16) * 4 + x2 / 64) % 4) * 64 + x2 % 64 == x2
  {
  }

  /** Different bytes give different tokens. */
  lemma TokenTextInjective(a: seq<byte>, b: seq<byte>)
    requires TokenText(a) == TokenText(b)
    ensures a == b
  {
    TokenTextUnpadded(a);
    TokenTextUnpadded(b);
    DecodeUnpadded(a);
    DecodeUnpadded(b);
  }

  /** The default 32 bytes of entropy give 43 characters. */
  lemma DefaultTokenLength(bs: seq<byte>)
    requires |bs| == 32
    ensures |TokenText(bs)| == 43
  {
    TokenTextUnpadded(bs);
    UnpaddedLength(bs);
  }
}
