/** What the Base64 encoder and decoder promise: the output length, where
    padding may appear, the alphabet, the round trip, and where decoding
    stops. */
module Base64Facts {
  import opened Wrappers
  import opened CArith
  import opened Base64

  /** The encoder's 64 characters are exactly the alphabet string, in order. */
  lemma AlphabetMatches()
    ensures |ALPHABET| == 64
    ensures forall k :: 0 <= k < 64 ==> ALPHABET[k] == EncodeChar(k)
  {
    assert ALPHABET == seq(64, k requires 0 <= k < 64 => EncodeChar(k));
  }

  /** The decode table inverts the alphabet, and '=' is not in it. */
  lemma EncodeCharDecodes(k: int)
    requires 0 <= k < 64
    ensures EncodeChar(k) != PAD && DecodeChar(EncodeChar(k)) == k
  {
  }

  /** A character the table accepts is the alphabet character of its value. */
  lemma DecodeCharEncodes(c: char)
    requires DecodeChar(c) != INVALID
    ensures EncodeChar(DecodeChar(c)) == c
  {
  }

  /** Encoding n bytes gives exactly 4 * ceil(n / 3) characters. */
  lemma {:induction false} EncodeLength(d: seq<byte>)
    ensures |EncodeSpec(d)| == 4 * ((|d| + 2) / 3)
    decreases |d|
  {
    if d != [] {
      var n := if |d| < 3 then |d| else 3;
      EncodeLength(d[n..]);
      assert |EncodeSpec(d)| == 4 + |EncodeSpec(d[n..])|;
      if |d| < 3 {
        assert (|d| + 2) / 3 == 1;
      } else {
        assert (|d| + 2) / 3 == 1 + (|d[n..]| + 2) / 3;
      }
    }
  }

  /** Padding: '=' stands exactly in the last position when the length is
      not a multiple of three, and also in the one before it when the
      length leaves remainder one; every other character is in the
      alphabet. */
  lemma EncodeShape(d: seq<byte>)
    ensures var e := EncodeSpec(d);
      forall j :: 0 <= j < |e| ==>
        (e[j] == PAD <==> (j == |e| - 1 && |d| % 3 != 0) || (j == |e| - 2 && |d| % 3 == 1))
    ensures var e := EncodeSpec(d);
      forall j :: 0 <= j < |e| && e[j] != PAD ==> DecodeChar(e[j]) != INVALID
  {
    var e := EncodeSpec(d);
    forall j | 0 <= j < |e|
      ensures e[j] == PAD <==> (j == |e| - 1 && |d| % 3 != 0) || (j == |e| - 2 && |d| % 3 == 1)
      ensures e[j] != PAD ==> DecodeChar(e[j]) != INVALID
    {
      ShapeAt(d, j);
      assert ShapeHolds(d, j);
    }
  }

  /** The padding rule at one position of the encoding. */
  predicate ShapeHolds(d: seq<byte>, j: nat)
  {
    var e := EncodeSpec(d);
    j < |e| &&
    (e[j] == PAD <==> (j == |e| - 1 && |d| % 3 != 0) || (j == |e| - 2 && |d| % 3 == 1)) &&
    (e[j] != PAD ==> DecodeChar(e[j]) != INVALID)
  }

  lemma {:induction false} ShapeAt(d: seq<byte>, j: nat)
    requires j < |EncodeSpec(d)|
    ensures ShapeHolds(d, j)
    decreases |d|
  {
    if |d| <= 3 {
      ShapeOfShort(d, j);
    } else if j < 4 {
      ShapeOfFirstChunk(d, j);
    } else {
      ShapeAt(d[3..], j - 4);
      ShapeShift(d, j);
    }
  }

  lemma ShapeOfShort(d: seq<byte>, j: nat)
    requires 1 <= |d| <= 3 && j < 4
    ensures ShapeHolds(d, j)
  {
    var e := EncodeSpec(d);
    assert d[|d|..] == [];
    assert d[..|d|] == d;
    assert e == EncodeChunk(d) + EncodeSpec([]);
    GroupShape(d);
  }

  lemma ShapeOfFirstChunk(d: seq<byte>, j: nat)
    requires |d| > 3 && j < 4
    ensures ShapeHolds(d, j)
  {
    var e := EncodeSpec(d);
    var g := EncodeChunk(d[..3]);
    var t := EncodeSpec(d[3..]);
    assert e == g + t;
    EncodeLength(d[3..]);
    assert |e| == 4 + |t| && |t| >= 4;
    GroupShape(d[..3]);
    assert e[j] == g[j];
  }

  lemma ShapeShift(d: seq<byte>, j: nat)
    requires |d| > 3 && j >= 4 && ShapeHolds(d[3..], j - 4)
    ensures ShapeHolds(d, j)
  {
    var e := EncodeSpec(d);
    var t := EncodeSpec(d[3..]);
    assert e == EncodeChunk(d[..3]) + t;
    assert |e| == 4 + |t|;
    assert |d[3..]| % 3 == |d| % 3;
    assert e[j] == t[j - 4];
  }

  /** The four characters of one chunk: the first two always from the
      alphabet, the third '=' exactly for a one-byte chunk, the fourth '='
      exactly for a chunk shorter than three. */
  lemma GroupShape(chunk: seq<byte>)
    requires 1 <= |chunk| <= 3
    ensures var g := EncodeChunk(chunk);
      g[0] != PAD && g[1] != PAD
      && (g[2] == PAD <==> |chunk| == 1) && (g[3] == PAD <==> |chunk| < 3)
      && (forall j :: 0 <= j < 4 && g[j] != PAD ==> DecodeChar(g[j]) != INVALID)
  {
    var b1 := chunk[0];
    var b2: byte := if |chunk| > 1 then chunk[1] else 0;
    var b3: byte := if |chunk| > 2 then chunk[2] else 0;
    EncodeCharDecodes(b1 / 4);
    EncodeCharDecodes((b1 % 4) * 16 + b2 / 16);
    EncodeCharDecodes((b2 % 16) * 4 + b3 / 64);
    EncodeCharDecodes(b3 % 64);
  }

  /** Splitting a byte into its top six and low two bits and joining them
      back gives the byte. */
  lemma JoinFirst(b1: byte, b2: byte)
    ensures (b1 / 4) * 4 + ((b1 % 4) * 16 + b2 / 16) / 16 == b1
  {
    assert ((b1 % 4) * 16 + b2 / 16) / 16 == b1 % 4;
  }

  lemma JoinSecond(b1: byte, b2: byte, b3: byte)
    ensures (((b1 % 4) * 16 + b2 / 16) % 16) * 16 + ((b2 % 16) * 4 + b3 / 64) / 4 == b2
  {
    assert ((b1 % 4) * 16 + b2 / 16) % 16 == b2 / 16;
    assert ((b2 % 16) * 4 + b3 / 64) / 4 == b2 % 16;
  }

  lemma JoinThird(b2: byte, b3: byte)
    ensures (((b2 % 16) * 4 + b3 / 64) % 4) * 64 + b3 % 64 == b3
  {
    assert ((b2 % 16) * 4 + b3 / 64) % 4 == b3 / 64;
  }

  /** The group an encoded chunk forms decodes back to the chunk, whatever
      follows it. */
  lemma GroupDecodes(chunk: seq<byte>, t: string)
    requires 1 <= |chunk| <= 3
    ensures DecodeGroupAt(EncodeChunk(chunk) + t, 0) == Some(chunk)
  {
    if |chunk| == 1 {
      assert chunk == [chunk[0]];
      GroupDecodesOne(chunk[0], t);
    } else if |chunk| == 2 {
      assert chunk == [chunk[0], chunk[1]];
      GroupDecodesTwo(chunk[0], chunk[1], t);
    } else {
      assert chunk == [chunk[0], chunk[1], chunk[2]];
      GroupDecodesThree(chunk[0], chunk[1], chunk[2], t);
    }
  }

  lemma GroupDecodesOne(b1: byte, t: string)
    ensures DecodeGroupAt(EncodeGroup(b1, 0, 0, 1) + t, 0) == Some([b1])
  {
    var s := EncodeGroup(b1, 0, 0, 1) + t;
    var k1, k2 := b1 / 4, (b1 % 4) * 16;
    EncodeCharDecodes(k1);
    EncodeCharDecodes(k2);
    assert s[0] == EncodeChar(k1) && s[1] == EncodeChar(k2) && s[2] == PAD && s[3] == PAD;
    assert Present(s, 1) && !Present(s, 2) && !Present(s, 3);
    assert DecodeGroupAt(s, 0) == Some([(k1 * 4 + k2 / 16) as byte] + [] + []);
    JoinFirst(b1, 0);
    assert k1 * 4 + k2 / 16 == b1;
    assert [(k1 * 4 + k2 / 16) as byte] + [] + [] == [b1];
  }

  lemma GroupDecodesTwo(b1: byte, b2: byte, t: string)
    ensures DecodeGroupAt(EncodeGroup(b1, b2, 0, 2) + t, 0) == Some([b1, b2])
  {
    var s := EncodeGroup(b1, b2, 0, 2) + t;
    var k1, k2, k3 := b1 / 4, (b1 % 4) * 16 + b2 / 16, (b2 % 16) * 4;
    EncodeCharDecodes(k1);
    EncodeCharDecodes(k2);
    EncodeCharDecodes(k3);
    assert s[0] == EncodeChar(k1) && s[1] == EncodeChar(k2) && s[2] == EncodeChar(k3) && s[3] == PAD;
    assert Present(s, 1) && Present(s, 2) && !Present(s, 3);
    assert DecodeGroupAt(s, 0) == Some([(k1 * 4 + k2 / 16) as byte] + [((k2 % 16) * 16 + k3 / 4) as byte] + []);
    JoinFirst(b1, b2);
    JoinSecond(b1, b2, 0);
    assert k1 * 4 + k2 / 16 == b1 && (k2 % 16) * 16 + k3 / 4 == b2;
    assert [(k1 * 4 + k2 / 16) as byte] + [((k2 % 16) * 16 + k3 / 4) as byte] + [] == [b1, b2];
  }

  lemma GroupDecodesThree(b1: byte, b2: byte, b3: byte, t: string)
    ensures DecodeGroupAt(EncodeGroup(b1, b2, b3, 3) + t, 0) == Some([b1, b2, b3])
  {
    var s := EncodeGroup(b1, b2, b3, 3) + t;
    var k1, k2, k3, k4 := b1 / 4, (b1 % 4) * 16 + b2 / 16, (b2 % 16) * 4 + b3 / 64, b3 % 64;
    EncodeCharDecodes(k1);
    EncodeCharDecodes(k2);
    EncodeCharDecodes(k3);
    EncodeCharDecodes(k4);
    assert s[0] == EncodeChar(k1) && s[1] == EncodeChar(k2) && s[2] == EncodeChar(k3) && s[3] == EncodeChar(k4);
    assert Present(s, 1) && Present(s, 2) && Present(s, 3);
    assert DecodeGroupAt(s, 0) == Some([(k1 * 4 + k2 / 16) as byte] + [((k2 % 16) * 16 + k3 / 4) as byte]
      + [((k3 % 4) * 64 + k4) as byte]);
    JoinFirst(b1, b2);
    JoinSecond(b1, b2, b3);
    JoinThird(b2, b3);
    assert k1 * 4 + k2 / 16 == b1 && (k2 % 16) * 16 + k3 / 4 == b2 && (k3 % 4) * 64 + k4 == b3;
    assert [(k1 * 4 + k2 / 16) as byte] + [((k2 % 16) * 16 + k3 / 4) as byte] + [((k3 % 4) * 64 + k4) as byte]
      == [b1, b2, b3];
  }

  /** Decoding only looks forward: text placed in front does not change
      the decoding from a position past it. */
  lemma {:induction false} DecodeFromShift(p: string, s: string, i: nat)
    ensures DecodeFrom(p + s, |p| + i) == DecodeFrom(s, i)
    decreases |s| - i
  {
    if i < |s| {
      var ps := p + s;
      PresentShift(p, s, i);
      PresentShift(p, s, i + 1);
      PresentShift(p, s, i + 2);
      PresentShift(p, s, i + 3);
      assert ps[|p| + i] == s[i];
      assert DecodeGroupAt(ps, |p| + i) == DecodeGroupAt(s, i);
      DecodeFromShift(p, s, i + 4);
    }
  }

  lemma PresentShift(p: string, s: string, m: nat)
    ensures Present(p + s, |p| + m) == Present(s, m)
    ensures Present(s, m) ==> (p + s)[|p| + m] == s[m]
  {
  }

  lemma PresentPrefix(s: string, i: nat, m: nat)
    requires i <= |s| && m < i
    ensures Present(s[..i], m) == Present(s, m)
    ensures Present(s, m) ==> s[..i][m] == s[m]
  {
  }

  /** Round trip: decoding the encoding of any bytes gives those bytes. */
  lemma {:induction false} RoundTrip(d: seq<byte>)
    ensures DecodeSpec(EncodeSpec(d)) == d
    decreases |d|
  {
    if d != [] {
      var n := if |d| < 3 then |d| else 3;
      var g := EncodeChunk(d[..n]);
      var t := EncodeSpec(d[n..]);
      assert EncodeSpec(d) == g + t;
      GroupDecodes(d[..n], t);
      DecodeFromShift(g, t, 0);
      RoundTrip(d[n..]);
      assert d == d[..n] + d[n..];
    }
  }

  /** A group at `i` stops decoding exactly when it starts with '=' or
      holds, before any '=', a character outside the alphabet. */
  lemma StopCauses(s: string, i: nat)
    requires i < |s|
    ensures DecodeGroupAt(s, i).None? <==>
      s[i] == PAD || exists k :: i <= k < i + 4 && Present(s, k) && DecodeChar(s[k]) == INVALID
  {
    if s[i] != PAD && DecodeGroupAt(s, i).None? {
      if DecodeChar(s[i]) == INVALID {
        assert Present(s, i);
      } else if Present(s, i + 1) && DecodeChar(s[i + 1]) == INVALID {
      } else if Present(s, i + 2) && DecodeChar(s[i + 2]) == INVALID {
      } else {
        assert Present(s, i + 3) && DecodeChar(s[i + 3]) == INVALID;
      }
    }
  }

  lemma {:induction false} DecodeIgnoresAfterStop(s: string, i: nat, j: nat)
    requires i < |s| && DecodeGroupAt(s, i).None? && j <= i && (i - j) % 4 == 0
    ensures DecodeFrom(s, j) == DecodeFrom(s[..i], j)
    decreases i - j
  {
    if j < i {
      var q := s[..i];
      PresentPrefix(s, i, j);
      PresentPrefix(s, i, j + 1);
      PresentPrefix(s, i, j + 2);
      PresentPrefix(s, i, j + 3);
      assert DecodeGroupAt(q, j) == DecodeGroupAt(s, j);
      DecodeIgnoresAfterStop(s, i, j + 4);
    }
  }

  /** Decoding ends at the first group that stops it (a leading '=' or a
      character outside the alphabet): the result is what the groups
      before it decode to, and nothing from that group on counts. */
  lemma StopRule(s: string, i: nat)
    requires i < |s| && i % 4 == 0 && DecodeGroupAt(s, i).None?
    ensures DecodeSpec(s) == DecodeSpec(s[..i])
  {
    DecodeIgnoresAfterStop(s, i, 0);
  }
}
