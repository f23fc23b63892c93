/**
 * Base64 with the standard alphabet and padding, section 4 of RFC 4648.
 *
 * `Encode` is total. `Decode` is the strict decoder of section 3 of RFC 4648: the text must be
 * a whole number of four-character quanta, padding may only close the last quantum, and the pad
 * bits of a padded quantum must be zero (section 3.5). With that choice every byte string has
 * exactly one encoding and `Decode(s) == Some(b)` holds exactly when `Encode(b) == s`.
 */
module Base64 {
  import opened Bytes
  import opened Wrappers

  /** The value of one base64 character: a 6-bit group. */
  type sextet = v: int | 0 <= v < 64

  /** The pad character. */
  const Pad: char := '='

  /** Table 1 of RFC 4648: 'A'..'Z' are 0..25, 'a'..'z' are 26..51, '0'..'9' are 52..61, then '+' and '/'. */
  function CharOf(v: sextet): char {
    if v < 26 then ('A' as int + v) as char
    else if v < 52 then ('a' as int + (v - 26)) as char
    else if v < 62 then ('0' as int + (v - 52)) as char
    else if v == 62 then '+'
    else '/'
  }

  /** The inverse of `CharOf`: `None` for every character outside the alphabet (the pad included). */
  function ValueOf(c: char): (r: Option<sextet>)
    ensures r.Some? ==> CharOf(r.value) == c
    ensures c == Pad ==> r == None
  {
    if 'A' <= c <= 'Z' then Some(c as int - 'A' as int)
    else if 'a' <= c <= 'z' then Some(c as int - 'a' as int + 26)
    else if '0' <= c <= '9' then Some(c as int - '0' as int + 52)
    else if c == '+' then Some(62)
    else if c == '/' then Some(63)
    else None
  }

  predicate InAlphabet(c: char) {
    ValueOf(c).Some?
  }

  /** Every value has its character and reads back from it. */
  lemma ValueOfCharOf(v: sextet)
    ensures ValueOf(CharOf(v)) == Some(v)
  {
  }

  /** One whole 24-bit group: three bytes become four characters, most significant bits first. */
  function EncodeGroup(x: byte, y: byte, z: byte): string {
    [CharOf(x / 4), CharOf((x % 4) * 16 + y / 16), CharOf((y % 16) * 4 + z / 64), CharOf(z % 64)]
  }

  /** A final quantum of 8 bits: two characters followed by two pad characters. */
  function EncodeLastOne(x: byte): string {
    [CharOf(x / 4), CharOf((x % 4) * 16), Pad, Pad]
  }

  /** A final quantum of 16 bits: three characters followed by one pad character. */
  function EncodeLastTwo(x: byte, y: byte): string {
    [CharOf(x / 4), CharOf((x % 4) * 16 + y / 16), CharOf((y % 16) * 4), Pad]
  }

  /** The base64 text of `b`: four characters per started group of three bytes. */
  function Encode(b: seq<byte>): (r: string)
    ensures r == [] <==> b == []
    decreases |b|
  {
    if |b| == 0 then []
    else if |b| == 1 then EncodeLastOne(b[0])
    else if |b| == 2 then EncodeLastTwo(b[0], b[1])
    else EncodeGroup(b[0], b[1], b[2]) + Encode(b[3..])
  }

  /** The first byte of a group: all six bits of its first character and two of its second. */
  function FirstByte(a: sextet, b: sextet): byte {
    a * 4 + b / 16
  }

  /** The second byte of a group: four bits of its second character and four of its third. */
  function SecondByte(b: sextet, c: sextet): byte {
    (b % 16) * 16 + c / 4
  }

  /** The third byte of a group: two bits of its third character and all six of its fourth. */
  function ThirdByte(c: sextet, d: sextet): byte {
    (c % 4) * 64 + d
  }

  /** The three bytes that four alphabet characters stand for. */
  function DecodeGroup(a: sextet, b: sextet, c: sextet, d: sextet): seq<byte> {
    [FirstByte(a, b), SecondByte(b, c), ThirdByte(c, d)]
  }

  /**
   * The last quantum of the text, the only one that may be padded. A padded quantum is
   * rejected when its pad bits are not zero.
   */
  function DecodeLast(q: string): Option<seq<byte>>
    requires |q| == 4
  {
    var a, b, c, d := ValueOf(q[0]), ValueOf(q[1]), ValueOf(q[2]), ValueOf(q[3]);
    if a.None? || b.None? then None
    else if c.Some? && d.Some? then Some(DecodeGroup(a.value, b.value, c.value, d.value))
    else if c.Some? then
      if q[3] == Pad && c.value % 4 == 0 then Some([FirstByte(a.value, b.value), SecondByte(b.value, c.value)]) else None
    else if q[2] == Pad && q[3] == Pad && b.value % 16 == 0 then Some([FirstByte(a.value, b.value)])
    else None
  }

  /** The bytes that `s` encodes, or `None` when `s` is not base64 text. */
  function Decode(s: string): (r: Option<seq<byte>>)
    ensures r.Some? ==> (r.value == [] <==> s == [])
    decreases |s|
  {
    if |s| == 0 then Some([])
    else if |s| < 4 then None
    else if |s| == 4 then DecodeLast(s)
    else
      var a, b, c, d := ValueOf(s[0]), ValueOf(s[1]), ValueOf(s[2]), ValueOf(s[3]);
      var rest := Decode(s[4..]);
      if a.Some? && b.Some? && c.Some? && d.Some? && rest.Some? then
        Some(DecodeGroup(a.value, b.value, c.value, d.value) + rest.value)
      else None
  }

  /** Splitting three bytes into four sextets and joining them again gives the bytes back. */
  lemma SplitThenJoin(x: byte, y: byte, z: byte)
    ensures FirstByte(x / 4, (x % 4) * 16 + y / 16) == x
    ensures SecondByte((x % 4) * 16 + y / 16, (y % 16) * 4 + z / 64) == y
    ensures ThirdByte((y % 16) * 4 + z / 64, z % 64) == z
  {
  }

  /** Joining four sextets into three bytes and splitting them again gives the sextets back. */
  lemma JoinThenSplit(a: sextet, b: sextet, c: sextet, d: sextet)
    ensures FirstByte(a, b) / 4 == a
    ensures (FirstByte(a, b) % 4) * 16 + SecondByte(b, c) / 16 == b
    ensures (SecondByte(b, c) % 16) * 4 + ThirdByte(c, d) / 64 == c
    ensures ThirdByte(c, d) % 64 == d
  {
  }

  lemma DecodeEncodeGroup(x: byte, y: byte, z: byte)
    ensures |EncodeGroup(x, y, z)| == 4
    ensures var s := EncodeGroup(x, y, z);
      ValueOf(s[0]).Some? && ValueOf(s[1]).Some? && ValueOf(s[2]).Some? && ValueOf(s[3]).Some? &&
      DecodeGroup(ValueOf(s[0]).value, ValueOf(s[1]).value, ValueOf(s[2]).value, ValueOf(s[3]).value) == [x, y, z]
  {
    ValueOfCharOf(x / 4);
    ValueOfCharOf((x % 4) * 16 + y / 16);
    ValueOfCharOf((y % 16) * 4 + z / 64);
    ValueOfCharOf(z % 64);
    SplitThenJoin(x, y, z);
  }

  lemma DecodeEncodeLastOne(x: byte)
    ensures DecodeLast(EncodeLastOne(x)) == Some([x])
  {
    var a, b := x / 4, (x % 4) * 16;
    assert ValueOf(CharOf(a)) == Some(a) && ValueOf(CharOf(b)) == Some(b) by {
      ValueOfCharOf(a);
      ValueOfCharOf(b);
    }
    assert b % 16 == 0 && FirstByte(a, b) == x by {
      SplitThenJoin(x, 0, 0);
    }
  }

  lemma DecodeEncodeLastTwo(x: byte, y: byte)
    ensures DecodeLast(EncodeLastTwo(x, y)) == Some([x, y])
  {
    var a, b, c := x / 4, (x % 4) * 16 + y / 16, (y % 16) * 4;
    assert ValueOf(CharOf(a)) == Some(a) && ValueOf(CharOf(b)) == Some(b) && ValueOf(CharOf(c)) == Some(c) by {
      ValueOfCharOf(a);
      ValueOfCharOf(b);
      ValueOfCharOf(c);
    }
    assert c % 4 == 0 && FirstByte(a, b) == x && SecondByte(b, c) == y by {
      SplitThenJoin(x, y, 0);
    }
  }

  /** A whole group in front of a non-empty text decodes to its three bytes in front of the rest. */
  lemma DecodeGroupThenRest(x: byte, y: byte, z: byte, rest: string)
    requires |rest| > 0
    ensures Decode(EncodeGroup(x, y, z) + rest) ==
      if Decode(rest).Some? then Some([x, y, z] + Decode(rest).value) else None
  {
    var s := EncodeGroup(x, y, z) + rest;
    DecodeEncodeGroup(x, y, z);
    assert s[4..] == rest;
    assert s[..4] == EncodeGroup(x, y, z);
  }

  lemma DecodeEncodeOne(x: byte)
    ensures Decode(Encode([x])) == Some([x])
  {
    assert Encode([x]) == EncodeLastOne(x);
    DecodeEncodeLastOne(x);
  }

  lemma DecodeEncodeTwo(x: byte, y: byte)
    ensures Decode(Encode([x, y])) == Some([x, y])
  {
    assert Encode([x, y]) == EncodeLastTwo(x, y);
    DecodeEncodeLastTwo(x, y);
  }

  lemma DecodeEncodeThree(x: byte, y: byte, z: byte)
    ensures Decode(Encode([x, y, z])) == Some([x, y, z])
  {
    assert Encode([x, y, z]) == EncodeGroup(x, y, z) + Encode([]);
    assert Encode([x, y, z]) == EncodeGroup(x, y, z);
    DecodeEncodeGroup(x, y, z);
  }

  /** Decoding undoes encoding, for every byte string including the empty one. */
  lemma {:induction false} DecodeEncode(b: seq<byte>)
    ensures Decode(Encode(b)) == Some(b)
    decreases |b|
  {
    if |b| == 0 {
    } else if |b| == 1 {
      DecodeEncodeOne(b[0]);
      assert b == [b[0]];
    } else if |b| == 2 {
      DecodeEncodeTwo(b[0], b[1]);
      assert b == [b[0], b[1]];
    } else if |b| == 3 {
      DecodeEncodeThree(b[0], b[1], b[2]);
      assert b == [b[0], b[1], b[2]];
    } else {
      DecodeEncode(b[3..]);
      DecodeEncodeLonger(b);
    }
  }

  /** The inductive step of `DecodeEncode`: a whole group in front of a text that round-trips. */
  lemma DecodeEncodeLonger(b: seq<byte>)
    requires |b| > 3 && Decode(Encode(b[3..])) == Some(b[3..])
    ensures Decode(Encode(b)) == Some(b)
  {
    var rest := Encode(b[3..]);
    assert |rest| > 0 by {
      EncodeLength(b[3..]);
    }
    assert Encode(b) == EncodeGroup(b[0], b[1], b[2]) + rest;
    assert Decode(EncodeGroup(b[0], b[1], b[2]) + rest) == Some([b[0], b[1], b[2]] + b[3..]) by {
      DecodeGroupThenRest(b[0], b[1], b[2], rest);
    }
    SplitAtThree(b);
  }

  lemma SplitAtThree(b: seq<byte>)
    requires |b| >= 3
    ensures b == [b[0], b[1], b[2]] + b[3..]
  {
    assert b[..3] == [b[0], b[1], b[2]];
    assert b == b[..3] + b[3..];
  }

  lemma EncodeDecodeLast(q: string)
    requires |q| == 4 && DecodeLast(q).Some?
    ensures Encode(DecodeLast(q).value) == q
  {
    var a, b := ValueOf(q[0]).value, ValueOf(q[1]).value;
    if ValueOf(q[2]).None? {
      JoinThenSplit(a, b, 0, 0);
      assert DecodeLast(q).value == [FirstByte(a, b)];
    } else if ValueOf(q[3]).None? {
      var c := ValueOf(q[2]).value;
      JoinThenSplit(a, b, c, 0);
      assert DecodeLast(q).value == [FirstByte(a, b), SecondByte(b, c)];
    } else {
      var c, d := ValueOf(q[2]).value, ValueOf(q[3]).value;
      JoinThenSplit(a, b, c, d);
      assert DecodeLast(q).value == DecodeGroup(a, b, c, d);
    }
  }

  /** A text that decodes is the encoding of what it decodes to: no other text decodes. */
  lemma {:induction false} EncodeDecode(s: string)
    requires Decode(s).Some?
    ensures Encode(Decode(s).value) == s
    decreases |s|
  {
    if |s| == 4 {
      EncodeDecodeLast(s);
    } else if |s| > 4 {
      var a, b, c, d := ValueOf(s[0]).value, ValueOf(s[1]).value, ValueOf(s[2]).value, ValueOf(s[3]).value;
      var rest := Decode(s[4..]).value;
      EncodeDecode(s[4..]);
      var g := DecodeGroup(a, b, c, d);
      JoinThenSplit(a, b, c, d);
      assert Decode(s).value == g + rest;
      assert (g + rest)[3..] == rest;
      assert EncodeGroup(g[0], g[1], g[2]) == s[..4];
      assert s == s[..4] + s[4..];
    }
  }

  /** Base64 is a bijection between byte strings and the texts `Decode` accepts. */
  lemma DecodeIffEncode(s: string, b: seq<byte>)
    ensures Decode(s) == Some(b) <==> Encode(b) == s
  {
    if Decode(s) == Some(b) {
      EncodeDecode(s);
    }
    if Encode(b) == s {
      DecodeEncode(b);
    }
  }

  /** Four characters for every started group of three bytes. */
  lemma {:induction false} EncodeLength(b: seq<byte>)
    ensures |Encode(b)| == 4 * ((|b| + 2) / 3)
    decreases |b|
  {
    if |b| > 2 {
      EncodeLength(b[3..]);
      assert |Encode(b)| == 4 + |Encode(b[3..])|;
      assert (|b| + 2) / 3 == (|b[3..]| + 2) / 3 + 1;
    }
  }

  /** Encoded text holds alphabet characters and pad characters only. */
  lemma {:induction false} EncodeUsesAlphabet(b: seq<byte>, i: nat)
    requires i < |Encode(b)|
    ensures InAlphabet(Encode(b)[i]) || Encode(b)[i] == Pad
    decreases |b|
  {
    var s := Encode(b);
    if |b| <= 2 || i < 4 {
      var v := if i == 0 then b[0] / 4
        else if i == 1 then (b[0] % 4) * 16 + (if |b| > 1 then b[1] / 16 else 0)
        else if i == 2 && |b| > 1 then (b[1] % 16) * 4 + (if |b| > 2 then b[2] / 64 else 0)
        else if i == 3 && |b| > 2 then b[2] % 64
        else 0;
      ValueOfCharOf(v);
    } else {
      assert s == EncodeGroup(b[0], b[1], b[2]) + Encode(b[3..]);
      EncodeUsesAlphabet(b[3..], i - 4);
    }
  }

  /** A character outside the alphabet and other than the pad makes the whole text invalid. */
  lemma ForeignCharacterRejected(s: string, i: nat)
    requires i < |s| && !InAlphabet(s[i]) && s[i] != Pad
    ensures Decode(s) == None
  {
    if Decode(s).Some? {
      EncodeDecode(s);
      EncodeUsesAlphabet(Decode(s).value, i);
    }
  }
}
