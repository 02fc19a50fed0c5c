/** Base64 encoding and decoding as in RFC 4648, section 4 (the standard
    alphabet), with '=' padding as in section 3.2. Text is a sequence of
    characters; data is a sequence of bytes. */
module Base64 {
  import opened Wrappers
  import opened CArith

  const ALPHABET: string := "ABCDEFGHIJKLMNOPQRSTUVWXYZ" + "abcdefghijklmnopqrstuvwxyz" + "0123456789+/"
  const PAD: char := '='
  /** The decode table's mark for a character outside the alphabet. */
  const INVALID: int := 255

  /** The alphabet character for a 6-bit value: 'A'-'Z', 'a'-'z', '0'-'9',
      '+', '/' in that order. */
  function EncodeChar(k: int): char
    requires 0 <= k < 64
  {
    if k < 26 then ('A' as int + k) as char
    else if k < 52 then ('a' as int + (k - 26)) as char
    else if k < 62 then ('0' as int + (k - 52)) as char
    else if k == 62 then '+'
    else '/'
  }

  /** The decode table: each alphabet character's 6-bit value, INVALID for
      every other character ('=' included). */
  function DecodeChar(c: char): (v: int)
    ensures 0 <= v < 64 || v == INVALID
  {
    if 'A' <= c <= 'Z' then c as int - 'A' as int
    else if 'a' <= c <= 'z' then c as int - 'a' as int + 26
    else if '0' <= c <= '9' then c as int - '0' as int + 52
    else if c == '+' then 62
    else if c == '/' then 63
    else INVALID
  }

  /** The four characters for a chunk of `n` (one to three) bytes; the
      bytes a short chunk lacks are passed as zero, and the characters they
      alone would fill are '='. The shifts and masks of the source select
      disjoint bit fields, written here with division and remainder. */
  function EncodeGroup(b1: byte, b2: byte, b3: byte, n: nat): (r: string)
    requires 1 <= n <= 3
    ensures |r| == 4
  {
    [EncodeChar(b1 / 4), EncodeChar((b1 % 4) * 16 + b2 / 16),
     if n > 1 then EncodeChar((b2 % 16) * 4 + b3 / 64) else PAD,
     if n > 2 then EncodeChar(b3 % 64) else PAD]
  }

  function EncodeChunk(chunk: seq<byte>): (r: string)
    requires 1 <= |chunk| <= 3
    ensures |r| == 4
  {
    EncodeGroup(chunk[0], if |chunk| > 1 then chunk[1] else 0, if |chunk| > 2 then chunk[2] else 0, |chunk|)
  }

  lemma AppendAssoc<T>(a: seq<T>, b: seq<T>, c: seq<T>)
    ensures a + (b + c) == (a + b) + c
  {
  }

  /** The encoding: chunk after chunk of three bytes. */
  function EncodeSpec(data: seq<byte>): string
    decreases |data|
  {
    if data == [] then []
    else
      var n := if |data| < 3 then |data| else 3;
      EncodeChunk(data[..n]) + EncodeSpec(data[n..])
  }

  /** What is left of `d` from index `i` on. */
  function From<T>(d: seq<T>, i: nat): seq<T>
  {
    if i <= |d| then d[i..] else []
  }

  lemma EncodeSpecStep(d: seq<byte>, i: nat, n: nat)
    requires i < |d| && n == (if |d| - i < 3 then |d| - i else 3)
    ensures EncodeSpec(From(d, i)) == EncodeGroup(d[i], if n > 1 then d[i + 1] else 0, if n > 2 then d[i + 2] else 0, n)
      + EncodeSpec(From(d, i + 3))
  {
    var t := From(d, i);
    assert t[..n] == d[i..i + n];
    assert t[n..] == From(d, i + 3);
  }

  /** `base64_encode(data, length)`: one pass over the bytes three at a
      time, appending four characters per step. */
  method EncodeBytes(data: array<byte>, length: nat) returns (ret: string)
    requires length <= data.Length
    ensures ret == EncodeSpec(data[..length])
  {
    var d := data[..length];
    ret := [];
    var i := 0;
    while i < length
      invariant i < length + 3
      invariant ret + EncodeSpec(From(d, i)) == EncodeSpec(d)
      decreases length - i
    {
      var b1 := d[i];
      var b2 := if i + 1 < length then d[i + 1] else 0;
      var b3 := if i + 2 < length then d[i + 2] else 0;
      var c1 := EncodeChar(b1 / 4);
      var c2 := EncodeChar((b1 % 4) * 16 + b2 / 16);
      var c3 := if i + 1 < length then EncodeChar((b2 % 16) * 4 + b3 / 64) else PAD;
      var c4 := if i + 2 < length then EncodeChar(b3 % 64) else PAD;
      ghost var n := if length - i < 3 then length - i else 3;
      assert [c1, c2, c3, c4] == EncodeGroup(b1, b2, b3, n);
      EncodeSpecStep(d, i, n);
      AppendAssoc(ret, [c1, c2, c3, c4], EncodeSpec(From(d, i + 3)));
      ret := ret + [c1, c2, c3, c4];
      i := i + 3;
    }
    assert From(d, i) == [];
  }

  /** `base64_encode(vector)`: the same encoding over a vector's buffer. */
  method Encode(data: seq<byte>) returns (ret: string)
    ensures ret == EncodeSpec(data)
  {
    var buffer := new byte[|data|](i requires 0 <= i < |data| => data[i]);
    assert buffer[..|data|] == data;
    ret := EncodeBytes(buffer, |data|);
  }

  /** Whether the text has a character other than '=' at `k`. */
  predicate Present(s: string, k: nat)
  {
    k < |s| && s[k] != PAD
  }

  /** The bytes the group of up to four characters at `i` decodes to, or
      None where decoding stops: at a group starting with '=' or at a group
      holding a character outside the alphabet. A '=' (or the end of the
      text) in a later position counts as zero and suppresses that
      position's byte. */
  function DecodeGroupAt(s: string, i: nat): (r: Option<seq<byte>>)
    requires i < |s|
    ensures r.Some? ==> |r.value| == 1 + (if Present(s, i + 2) then 1 else 0) + (if Present(s, i + 3) then 1 else 0)
  {
    if s[i] == PAD then None
    else
      var b1 := DecodeChar(s[i]);
      var b2 := if Present(s, i + 1) then DecodeChar(s[i + 1]) else 0;
      var b3 := if Present(s, i + 2) then DecodeChar(s[i + 2]) else 0;
      var b4 := if Present(s, i + 3) then DecodeChar(s[i + 3]) else 0;
      if b1 == INVALID || b2 == INVALID || b3 == INVALID || b4 == INVALID then None
      else
        Some([(b1 * 4 + b2 / 16) as byte]
          + (if Present(s, i + 2) then [((b2 % 16) * 16 + b3 / 4) as byte] else [])
          + (if Present(s, i + 3) then [((b3 % 4) * 64 + b4) as byte] else []))
  }

  /** The decoding from index `i` on: group after group of four
      characters, up to the first group where decoding stops. */
  function DecodeFrom(s: string, i: nat): seq<byte>
    decreases |s| - i
  {
    if i >= |s| then []
    else
      match DecodeGroupAt(s, i)
      case None => []
      case Some(bytes) => bytes + DecodeFrom(s, i + 4)
  }

  function DecodeSpec(s: string): seq<byte>
  {
    DecodeFrom(s, 0)
  }

  /** `base64_decode`: one pass over the text four characters at a time,
      leaving the loop at a leading '=' and returning what was decoded so
      far at a character outside the alphabet. */
  method Decode(encoded: string) returns (decoded: seq<byte>)
    ensures decoded == DecodeSpec(encoded)
  {
    decoded := [];
    var i := 0;
    while i < |encoded|
      invariant decoded + DecodeFrom(encoded, i) == DecodeSpec(encoded)
      decreases |encoded| - i
    {
      if encoded[i] == PAD {
        break;
      }
      var group := DecodeGroupStep(encoded, i);
      if group.None? {
        return;
      }
      AppendAssoc(decoded, group.value, DecodeFrom(encoded, i + 4));
      decoded := decoded + group.value;
      i := i + 4;
    }
  }

  /** One step of the decoding loop for the group at `i` (not starting
      with '='): looks each character up in the table, giving up (None) at
      the first one outside the alphabet, then assembles one to three
      bytes. */
  method DecodeGroupStep(encoded: string, i: nat) returns (group: Option<seq<byte>>)
    requires i < |encoded| && encoded[i] != PAD
    ensures group == DecodeGroupAt(encoded, i)
  {
    var b1 := DecodeChar(encoded[i]);
    if b1 == INVALID {
      return None;
    }
    var b2 := if Present(encoded, i + 1) then DecodeChar(encoded[i + 1]) else 0;
    if b2 == INVALID {
      return None;
    }
    var b3 := if Present(encoded, i + 2) then DecodeChar(encoded[i + 2]) else 0;
    if b3 == INVALID {
      return None;
    }
    var b4 := if Present(encoded, i + 3) then DecodeChar(encoded[i + 3]) else 0;
    if b4 == INVALID {
      return None;
    }
    var first := [(b1 * 4 + b2 / 16) as byte];
    var second := if Present(encoded, i + 2) then [((b2 % 16) * 16 + b3 / 4) as byte] else [];
    var third := if Present(encoded, i + 3) then [((b3 % 4) * 64 + b4) as byte] else [];
    var bytes := first + second + third;
    return Some(bytes);
  }
}
