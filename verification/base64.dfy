/** The base64 text of a byte buffer (`buffer.toString('base64')`): the
    standard alphabet with `=` padding, as in section 4 of RFC 4648, and the
    decoding that undoes it. Bytes are first cut into 6-bit values (the
    value 64 standing for a pad), which are then written one character
    each. */
module Base64 {
  import opened Results

  type Byte = b: int | 0 <= b < 256

  /** A 6-bit value, or `Pad`. */
  type Symbol = v: int | 0 <= v <= 64

  const Pad: Symbol := 64

  /** The alphabet of section 4 of RFC 4648, and `=` for padding. */
  function CharOf(v: Symbol): char {
    if v < 26 then ('A' as int + v) as char
    else if v < 52 then ('a' as int + (v - 26)) as char
    else if v < 62 then ('0' as int + (v - 52)) as char
    else if v == 62 then '+'
    else if v == 63 then '/'
    else '='
  }

  predicate IsSymbolChar(c: char) {
    || 'A' <= c <= 'Z'
    || 'a' <= c <= 'z'
    || '0' <= c <= '9'
    || c == '+'
    || c == '/'
    || c == '='
  }

  /** The value of a character of the alphabet or `=`. */
  function ValueOf(c: char): Symbol
    requires IsSymbolChar(c)
  {
    if 'A' <= c <= 'Z' then c as int - 'A' as int
    else if 'a' <= c <= 'z' then c as int - 'a' as int + 26
    else if '0' <= c <= '9' then c as int - '0' as int + 52
    else if c == '+' then 62
    else if c == '/' then 63
    else Pad
  }

  /** `CharOf` and `ValueOf` are inverse bijections. */
  lemma CharValueBijection()
    ensures forall v: Symbol :: IsSymbolChar(CharOf(v)) && ValueOf(CharOf(v)) == v
    ensures forall c | IsSymbolChar(c) :: CharOf(ValueOf(c)) == c
  {
  }

  /** One character per value. */
  function ToChars(vs: seq<Symbol>): (s: string)
    ensures |s| == |vs|
  {
    seq(|vs|, i requires 0 <= i < |vs| => CharOf(vs[i]))
  }

  /** One value per character. */
  function ToValues(s: string): (vs: seq<Symbol>)
    requires forall i | 0 <= i < |s| :: IsSymbolChar(s[i])
    ensures |vs| == |s|
  {
    seq(|s|, i requires 0 <= i < |s| => ValueOf(s[i]))
  }

  /** The values of a group of three bytes. */
  function SplitThree(a: Byte, b: Byte, c: Byte): seq<Symbol> {
    [a / 4, a % 4 * 16 + b / 16, b % 16 * 4 + c / 64, c % 64]
  }

  /** The values of bytes in groups of three, a final short group padded. */
  function Sextets(bytes: seq<Byte>): (vs: seq<Symbol>)
    ensures |vs| == 4 * ((|bytes| + 2) / 3)
    decreases |bytes|
  {
    if |bytes| == 0 then []
    else if |bytes| == 1 then [bytes[0] / 4, bytes[0] % 4 * 16, Pad, Pad]
    else if |bytes| == 2 then
      [bytes[0] / 4, bytes[0] % 4 * 16 + bytes[1] / 16, bytes[1] % 16 * 4, Pad]
    else SplitThree(bytes[0], bytes[1], bytes[2]) + Sextets(bytes[3..])
  }

  /** The base64 text of `bytes`: four characters per started group of
      three bytes, the last group padded with `=`. */
  function Encode(bytes: seq<Byte>): (s: string)
    ensures |s| == 4 * ((|bytes| + 2) / 3)
    ensures forall i | 0 <= i < |s| :: IsSymbolChar(s[i])
  {
    CharValueBijection();
    ToChars(Sextets(bytes))
  }

  /** Four values, none a pad, as three bytes. */
  function JoinThree(vs: seq<Symbol>): (bytes: seq<Byte>)
    requires |vs| == 4 && forall i | 0 <= i < 4 :: vs[i] < Pad
  {
    var v0: int, v1: int, v2: int, v3: int := vs[0], vs[1], vs[2], vs[3];
    [v0 * 4 + v1 / 16, v1 % 16 * 16 + v2 / 4, v2 % 4 * 64 + v3]
  }

  /** Reads values back into bytes. Only what `Sextets` produces is
      accepted: whole groups of four, pads only at the end of the last
      group, and zero bits where a padded group has spare ones. */
  function JoinSextets(vs: seq<Symbol>): Option<seq<Byte>>
    decreases |vs|
  {
    if |vs| == 0 then Some([])
    else if |vs| < 4 || vs[0] == Pad || vs[1] == Pad then None
    else if vs[3] == Pad then
      var v0: int, v1: int, v2: int := vs[0], vs[1], vs[2];
      if |vs| != 4 then None
      else if v2 == Pad then
        if v1 % 16 != 0 then None else Some([v0 * 4 + v1 / 16])
      else if v2 % 4 != 0 then None
      else Some([v0 * 4 + v1 / 16, v1 % 16 * 16 + v2 / 4])
    else if vs[2] == Pad then None
    else
      match JoinSextets(vs[4..])
      case None => None
      case Some(rest) => Some(JoinThree(vs[..4]) + rest)
  }

  /** Reads base64 text back into bytes; text `Encode` cannot produce is
      refused. */
  function Decode(s: string): Option<seq<Byte>> {
    if forall i | 0 <= i < |s| :: IsSymbolChar(s[i]) then JoinSextets(ToValues(s)) else None
  }

  /** The bit shuffling of one group, byte side: splitting three bytes
      into values and joining them again gives the bytes back. */
  lemma BytesThroughSextets(a: int, b: int, c: int)
    requires 0 <= a < 256 && 0 <= b < 256 && 0 <= c < 256
    ensures (a % 4 * 16 + b / 16) / 16 == a % 4 && (a % 4 * 16 + b / 16) % 16 == b / 16
    ensures (b % 16 * 4 + c / 64) / 4 == b % 16 && (b % 16 * 4 + c / 64) % 4 == c / 64
    ensures a / 4 * 4 + a % 4 == a && b / 16 * 16 + b % 16 == b && c / 64 * 64 + c % 64 == c
  {
  }

  /** The bit shuffling of one group, value side. */
  lemma SextetsThroughBytes(v0: int, v1: int, v2: int, v3: int)
    requires 0 <= v0 < 64 && 0 <= v1 < 64 && 0 <= v2 < 64 && 0 <= v3 < 64
    ensures (v0 * 4 + v1 / 16) / 4 == v0 && (v0 * 4 + v1 / 16) % 4 == v1 / 16
    ensures (v1 % 16 * 16 + v2 / 4) / 16 == v1 % 16 && (v1 % 16 * 16 + v2 / 4) % 16 == v2 / 4
    ensures (v2 % 4 * 64 + v3) / 64 == v2 % 4 && (v2 % 4 * 64 + v3) % 64 == v3
    ensures v1 / 16 * 16 + v1 % 16 == v1 && v2 / 4 * 4 + v2 % 4 == v2
  {
  }

  lemma JoinOneByte(a: Byte)
    ensures JoinSextets(Sextets([a])) == Some([a])
  {
    BytesThroughSextets(a, 0, 0);
  }

  lemma JoinTwoBytes(a: Byte, b: Byte)
    ensures JoinSextets(Sextets([a, b])) == Some([a, b])
  {
    BytesThroughSextets(a, b, 0);
  }

  /** Joining the values of three bytes gives the bytes back. */
  lemma JoinThreeOfSplitThree(a: Byte, b: Byte, c: Byte)
    ensures JoinThree(SplitThree(a, b, c)) == [a, b, c]
  {
    BytesThroughSextets(a, b, c);
  }

  /** A full group in front of values that join. */
  lemma JoinGroup(a: Byte, b: Byte, c: Byte, rest: seq<Symbol>, tail: seq<Byte>)
    requires JoinSextets(rest) == Some(tail)
    ensures JoinSextets(SplitThree(a, b, c) + rest) == Some([a, b, c] + tail)
  {
    var group := SplitThree(a, b, c);
    var vs := group + rest;
    JoinThreeOfSplitThree(a, b, c);
    assert vs[..4] == group && vs[4..] == rest;
  }

  /** Joining the values of bytes gives the bytes back. */
  lemma {:induction false} JoinSextetsInvertsSextets(bytes: seq<Byte>)
    ensures JoinSextets(Sextets(bytes)) == Some(bytes)
    decreases |bytes|
  {
    if |bytes| == 1 {
      JoinOneByte(bytes[0]);
      assert bytes == [bytes[0]];
    } else if |bytes| == 2 {
      JoinTwoBytes(bytes[0], bytes[1]);
      assert bytes == [bytes[0], bytes[1]];
    } else if |bytes| > 2 {
      var tail := bytes[3..];
      JoinSextetsInvertsSextets(tail);
      assert Sextets(bytes) == SplitThree(bytes[0], bytes[1], bytes[2]) + Sextets(tail);
      JoinGroup(bytes[0], bytes[1], bytes[2], Sextets(tail), tail);
      assert bytes == [bytes[0], bytes[1], bytes[2]] + tail;
    }
  }

  /** A padded last group is the splitting of the bytes it joins to. */
  lemma SextetsOfPaddedGroup(vs: seq<Symbol>)
    requires |vs| == 4 && vs[3] == Pad && JoinSextets(vs).Some?
    ensures Sextets(JoinSextets(vs).value) == vs
  {
    if vs[2] == Pad {
      SextetsOfOneByteGroup(vs);
    } else {
      SextetsOfTwoByteGroup(vs);
    }
  }

  lemma SextetsOfOneByteGroup(vs: seq<Symbol>)
    requires |vs| == 4 && vs[2] == Pad && vs[3] == Pad && JoinSextets(vs).Some?
    ensures Sextets(JoinSextets(vs).value) == vs
  {
    SextetsThroughBytes(vs[0], vs[1], 0, 0);
  }

  lemma SextetsOfTwoByteGroup(vs: seq<Symbol>)
    requires |vs| == 4 && vs[2] != Pad && vs[3] == Pad && JoinSextets(vs).Some?
    ensures Sextets(JoinSextets(vs).value) == vs
  {
    SextetsThroughBytes(vs[0], vs[1], vs[2], 0);
  }

  /** Splitting the bytes four values join to gives the values back. */
  lemma SplitThreeOfJoinThree(g: seq<Symbol>)
    requires |g| == 4 && forall i | 0 <= i < 4 :: g[i] < Pad
    ensures var b := JoinThree(g); SplitThree(b[0], b[1], b[2]) == g
  {
    SextetsThroughBytes(g[0], g[1], g[2], g[3]);
  }

  /** The values of three bytes and more are those of the three, then
      those of the rest. */
  lemma SextetsOfThreeAndMore(three: seq<Byte>, rest: seq<Byte>)
    requires |three| == 3
    ensures Sextets(three + rest) == SplitThree(three[0], three[1], three[2]) + Sextets(rest)
  {
    var bytes := three + rest;
    assert bytes[..3] == three && bytes[3..] == rest;
  }

  /** A full group joins to three bytes in front of what the rest joins to. */
  lemma JoinFullGroup(vs: seq<Symbol>)
    requires |vs| >= 4 && vs[3] != Pad && JoinSextets(vs).Some?
    ensures forall i | 0 <= i < 4 :: vs[..4][i] < Pad
    ensures JoinSextets(vs[4..]).Some?
    ensures JoinSextets(vs).value == JoinThree(vs[..4]) + JoinSextets(vs[4..]).value
  {
  }

  /** A full group in front of values that are the splitting of what they
      join to. */
  lemma SextetsOfFullGroup(vs: seq<Symbol>)
    requires |vs| >= 4 && vs[3] != Pad && JoinSextets(vs).Some?
    requires Sextets(JoinSextets(vs[4..]).value) == vs[4..]
    ensures Sextets(JoinSextets(vs).value) == vs
  {
    JoinFullGroup(vs);
    var group := vs[..4];
    SplitThreeOfJoinThree(group);
    SextetsOfThreeAndMore(JoinThree(group), JoinSextets(vs[4..]).value);
    assert vs == group + vs[4..];
  }

  /** Whatever joins is the splitting of the bytes it joins to. */
  lemma {:induction false} SextetsInvertJoinSextets(vs: seq<Symbol>)
    requires JoinSextets(vs).Some?
    ensures Sextets(JoinSextets(vs).value) == vs
    decreases |vs|
  {
    if |vs| > 0 {
      if vs[3] == Pad {
        SextetsOfPaddedGroup(vs);
      } else {
        SextetsInvertJoinSextets(vs[4..]);
        SextetsOfFullGroup(vs);
      }
    }
  }

  /** Decoding undoes encoding. */
  lemma DecodeEncode(bytes: seq<Byte>)
    ensures Decode(Encode(bytes)) == Some(bytes)
  {
    CharValueBijection();
    var vs := Sextets(bytes);
    assert ToValues(ToChars(vs)) == vs;
    JoinSextetsInvertsSextets(bytes);
  }

  /** Encoding undoes decoding: `Decode` accepts exactly the texts `Encode`
      produces. */
  lemma EncodeDecode(s: string)
    requires Decode(s).Some?
    ensures Encode(Decode(s).value) == s
  {
    CharValueBijection();
    var vs := ToValues(s);
    SextetsInvertJoinSextets(vs);
    assert ToChars(vs) == s;
  }
}
