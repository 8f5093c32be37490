/** `base64.RawStdEncoding`: the standard alphabet of section 4 of RFC 4648 without padding. */
module Base64 {
  import opened Wrappers

  type Byte = b: int | 0 <= b < 256
  type Bytes = seq<Byte>
  type Sextet = v: int | 0 <= v < 64

  /** The number a byte string denotes, most significant byte first. */
  function BytesValue(b: Bytes): nat {
    if b == [] then 0 else BytesValue(b[..|b| - 1]) * 256 + b[|b| - 1]
  }

  lemma FourBytes(b0: Byte, b1: Byte, b2: Byte, b3: Byte)
    ensures BytesValue([b0, b1, b2, b3]) == b0 * 0x100_0000 + b1 * 0x1_0000 + b2 * 0x100 + b3
  {
    var s1: Bytes, s2: Bytes, s3: Bytes, s4: Bytes := [b0], [b0, b1], [b0, b1, b2], [b0, b1, b2, b3];
    assert s4[..3] == s3 && s3[..2] == s2 && s2[..1] == s1 && s1[..0] == [];
    assert BytesValue(s1) == b0;
    assert BytesValue(s3) == BytesValue(s2) * 256 + b2;
  }

  function Symbol(v: Sextet): char {
    if v < 26 then 'A' + v as char
    else if v < 52 then 'a' + (v - 26) as char
    else if v < 62 then '0' + (v - 52) as char
    else if v == 62 then '+' else '/'
  }

  function SextetOf(c: char): Option<Sextet> {
    if 'A' <= c <= 'Z' then Some((c - 'A') as int)
    else if 'a' <= c <= 'z' then Some((c - 'a') as int + 26)
    else if '0' <= c <= '9' then Some((c - '0') as int + 52)
    else if c == '+' then Some(62)
    else if c == '/' then Some(63)
    else None
  }

  predicate InAlphabet(s: string) { forall i :: 0 <= i < |s| ==> SextetOf(s[i]).Some? }

  /** Whole 24-bit groups, then a two- or three-symbol tail whose spare low bits are zero. */
  function Encode(b: Bytes): string {
    if |b| == 0 then ""
    else if |b| == 1 then [Symbol(b[0] / 4), Symbol(b[0] % 4 * 16)]
    else if |b| == 2 then [Symbol(b[0] / 4), Symbol(b[0] % 4 * 16 + b[1] / 16), Symbol(b[1] % 16 * 4)]
    else
      [Symbol(b[0] / 4), Symbol(b[0] % 4 * 16 + b[1] / 16), Symbol(b[1] % 16 * 4 + b[2] / 64), Symbol(b[2] % 64)]
      + Encode(b[3..])
  }

  /** The decoder skips line breaks wherever they stand. */
  function DropLineBreaks(s: string): string {
    if s == [] then []
    else if s[0] == '\n' || s[0] == '\r' then DropLineBreaks(s[1..])
    else [s[0]] + DropLineBreaks(s[1..])
  }

  /** Groups of four symbols; a lone trailing symbol is an error, and the spare bits of a tail are ignored. */
  function DecodeGroups(s: string): Option<Bytes> {
    if |s| == 0 then Some([])
    else if |s| == 1 then None
    else
      var v0, v1 := SextetOf(s[0]), SextetOf(s[1]);
      if v0.None? || v1.None? then None
      else
        var b0: Byte := v0.value * 4 + v1.value / 16;
        if |s| == 2 then Some([b0])
        else
          var v2 := SextetOf(s[2]);
          if v2.None? then None
          else
            var b1: Byte := v1.value % 16 * 16 + v2.value / 4;
            if |s| == 3 then Some([b0, b1])
            else
              var v3 := SextetOf(s[3]);
              if v3.None? then None
              else
                var b2: Byte := v2.value % 4 * 64 + v3.value;
                match DecodeGroups(s[4..])
                case None => None
                case Some(rest) => Some([b0, b1, b2] + rest)
  }

  function Decode(s: string): Option<Bytes> { DecodeGroups(DropLineBreaks(s)) }

  lemma SymbolReadsBack(v: Sextet)
    ensures SextetOf(Symbol(v)) == Some(v)
  {
  }

  lemma {:induction false} EncodeInAlphabet(b: Bytes)
    ensures InAlphabet(Encode(b))
  {
    if |b| >= 3 {
      EncodeInAlphabet(b[3..]);
    }
  }

  lemma {:induction false} AlphabetHasNoLineBreaks(s: string)
    requires InAlphabet(s)
    ensures DropLineBreaks(s) == s
  {
    if s != [] {
      assert InAlphabet(s[1..]);
      AlphabetHasNoLineBreaks(s[1..]);
    }
  }

  /** Three bytes regroup into four sextets and back. */
  lemma Regroup(b0: Byte, b1: Byte, b2: Byte)
    ensures b0 / 4 * 4 + (b0 % 4 * 16 + b1 / 16) / 16 == b0
    ensures (b0 % 4 * 16 + b1 / 16) % 16 * 16 + (b1 % 16 * 4 + b2 / 64) / 4 == b1
    ensures (b1 % 16 * 4 + b2 / 64) % 4 * 64 + b2 % 64 == b2
  {
    assert (b0 % 4 * 16 + b1 / 16) / 16 == b0 % 4;
    assert (b0 % 4 * 16 + b1 / 16) % 16 == b1 / 16;
    assert (b1 % 16 * 4 + b2 / 64) / 4 == b1 % 16;
    assert (b1 % 16 * 4 + b2 / 64) % 4 == b2 / 64;
  }

  /** Decoding one whole group in front of a text whose decoding is known. */
  lemma DecodeGroup(v0: Sextet, v1: Sextet, v2: Sextet, v3: Sextet, tail: string, rest: Bytes)
    requires DecodeGroups(tail) == Some(rest)
    ensures DecodeGroups([Symbol(v0), Symbol(v1), Symbol(v2), Symbol(v3)] + tail)
         == Some([v0 * 4 + v1 / 16, v1 % 16 * 16 + v2 / 4, v2 % 4 * 64 + v3] + rest)
  {
    var s := [Symbol(v0), Symbol(v1), Symbol(v2), Symbol(v3)] + tail;
    SymbolReadsBack(v0);
    SymbolReadsBack(v1);
    SymbolReadsBack(v2);
    SymbolReadsBack(v3);
    assert s[4..] == tail;
  }

  /** The three cases of the encoder, each decoded. */
  lemma DecodeOne(b0: Byte)
    ensures DecodeGroups([Symbol(b0 / 4), Symbol(b0 % 4 * 16)]) == Some([b0])
  {
    SymbolReadsBack(b0 / 4);
    SymbolReadsBack(b0 % 4 * 16);
    Regroup(b0, 0, 0);
  }

  lemma DecodeTwo(b0: Byte, b1: Byte)
    ensures DecodeGroups([Symbol(b0 / 4), Symbol(b0 % 4 * 16 + b1 / 16), Symbol(b1 % 16 * 4)]) == Some([b0, b1])
  {
    SymbolReadsBack(b0 / 4);
    SymbolReadsBack(b0 % 4 * 16 + b1 / 16);
    SymbolReadsBack(b1 % 16 * 4);
    Regroup(b0, b1, 0);
  }

  lemma DecodeThree(b0: Byte, b1: Byte, b2: Byte, tail: string, rest: Bytes)
    requires DecodeGroups(tail) == Some(rest)
    ensures DecodeGroups([Symbol(b0 / 4), Symbol(b0 % 4 * 16 + b1 / 16), Symbol(b1 % 16 * 4 + b2 / 64), Symbol(b2 % 64)]
                         + tail)
         == Some([b0, b1, b2] + rest)
  {
    var v0, v1, v2, v3 := b0 / 4, b0 % 4 * 16 + b1 / 16, b1 % 16 * 4 + b2 / 64, b2 % 64;
    Regroup(b0, b1, b2);
    assert v0 * 4 + v1 / 16 == b0 && v1 % 16 * 16 + v2 / 4 == b1 && v2 % 4 * 64 + v3 == b2;
    DecodeGroup(v0, v1, v2, v3, tail, rest);
  }

  lemma {:induction false} DecodeGroupsEncode(b: Bytes)
    ensures DecodeGroups(Encode(b)) == Some(b)
  {
    if |b| == 0 {
    } else if |b| == 1 {
      DecodeOne(b[0]);
      assert b == [b[0]];
    } else if |b| == 2 {
      DecodeTwo(b[0], b[1]);
      assert b == [b[0], b[1]];
    } else {
      DecodeGroupsEncode(b[3..]);
      DecodeThree(b[0], b[1], b[2], Encode(b[3..]), b[3..]);
      assert b == [b[0], b[1], b[2]] + b[3..];
    }
  }

  /** Every byte string survives encoding and decoding, so no two byte strings share an encoding. */
  lemma DecodeEncode(b: Bytes)
    ensures Decode(Encode(b)) == Some(b)
  {
    EncodeInAlphabet(b);
    AlphabetHasNoLineBreaks(Encode(b));
    DecodeGroupsEncode(b);
  }

  /** Whole groups encode one after the other. */
  lemma {:induction false} EncodeConcat(a: Bytes, b: Bytes)
    requires |a| % 3 == 0
    ensures Encode(a + b) == Encode(a) + Encode(b)
  {
    if a == [] {
      assert a + b == b;
    } else {
      assert (a + b)[3..] == a[3..] + b;
      EncodeConcat(a[3..], b);
    }
  }

  /** The symbols are those of table 1 of RFC 4648, in its order. */
  lemma AlphabetOfRfc4648(v: nat)
    requires v < 32
    ensures SextetOf("ABCDEFGHIJKLMNOPQRSTUVWXYZabcdef"[v]) == Some(v)
    ensures SextetOf("ghijklmnopqrstuvwxyz0123456789+/"[v]) == Some(v + 32)
  {
    assert v == 0 || v == 1 || v == 2 || v == 3 || v == 4 || v == 5 || v == 6 || v == 7 || v == 8 || v == 9 ||
           v == 10 || v == 11 || v == 12 || v == 13 || v == 14 || v == 15 || v == 16 || v == 17 || v == 18 ||
           v == 19 || v == 20 || v == 21 || v == 22 || v == 23 || v == 24 || v == 25 || v == 26 || v == 27 ||
           v == 28 || v == 29 || v == 30 || v == 31;
  }

  /** Test vectors of section 10 of RFC 4648, without padding, and one that needs its last two symbols. */
  lemma ExamplesOfRfc4648()
    ensures Encode([0x66]) == "Zg" && Encode([0x66, 0x6f]) == "Zm8" && Encode([0x66, 0x6f, 0x6f]) == "Zm9v"
    ensures Encode([0xfb, 0xef, 0xff]) == "++//"
  {
  }
}
