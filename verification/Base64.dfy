/** JWK parameters as text: Go's `base64.RawURLEncoding` (section 5 of RFC 4648, without padding). */
module Base64 {
  import opened Wrappers
  import opened BigEndian

  type Sextet = x: int | 0 <= x < 64

  function Symbol(v: Sextet): char {
    if v < 26 then 'A' + v as char
    else if v < 52 then 'a' + (v - 26) as char
    else if v < 62 then '0' + (v - 52) as char
    else if v == 62 then '-' else '_'
  }

  function SextetOf(c: char): Option<Sextet> {
    if 'A' <= c <= 'Z' then Some((c - 'A') as int)
    else if 'a' <= c <= 'z' then Some((c - 'a') as int + 26)
    else if '0' <= c <= '9' then Some((c - '0') as int + 52)
    else if c == '-' then Some(62)
    else if c == '_' then Some(63)
    else None
  }

  lemma SymbolExactly(c: char, v: Sextet)
    ensures SextetOf(c) == Some(v) <==> c == Symbol(v)
  {
  }

  /** The URL-safe alphabet of table 2 in RFC 4648: where its runs begin and end, and that they are runs. */
  lemma Alphabet()
    ensures Symbol(0) == 'A' && Symbol(25) == 'Z' && Symbol(26) == 'a' && Symbol(51) == 'z'
    ensures Symbol(52) == '0' && Symbol(61) == '9' && Symbol(62) == '-' && Symbol(63) == '_'
    ensures forall v: Sextet | v < 61 && v != 25 && v != 51 :: Symbol(v + 1) as int == Symbol(v) as int + 1
  {
  }

  /** `EncodeToString` */
  function Encode(b: seq<Byte>): string {
    if |b| == 0 then ""
    else if |b| == 1 then [Symbol(b[0] / 4), Symbol(b[0] % 4 * 16)]
    else if |b| == 2 then [Symbol(b[0] / 4), Symbol(b[0] % 4 * 16 + b[1] / 16), Symbol(b[1] % 16 * 4)]
    else
      [Symbol(b[0] / 4), Symbol(b[0] % 4 * 16 + b[1] / 16), Symbol(b[1] % 16 * 4 + b[2] / 64), Symbol(b[2] % 64)]
      + Encode(b[3..])
  }

  predicate IsBreak(c: char) { c == '\r' || c == '\n' }

  /** The decoder skips line breaks wherever they stand. */
  function WithoutBreaks(text: string): string {
    if text == "" then ""
    else if IsBreak(text[0]) then WithoutBreaks(text[1..])
    else [text[0]] + WithoutBreaks(text[1..])
  }

  /** The bytes of a text without line breaks. The decoder is not strict: in a last group of two or three
      symbols it ignores the bits that do not fill a byte. */
  function DecodeGroups(t: string): Option<seq<Byte>> {
    if |t| == 0 then Some([])
    else if |t| == 1 then None
    else
      var v0, v1 := SextetOf(t[0]), SextetOf(t[1]);
      if v0.None? || v1.None? then None
      else if |t| == 2 then Some([v0.value * 4 + v1.value / 16])
      else
        var v2 := SextetOf(t[2]);
        if v2.None? then None
        else if |t| == 3 then Some([v0.value * 4 + v1.value / 16, v1.value % 16 * 16 + v2.value / 4])
        else
          var v3, rest := SextetOf(t[3]), DecodeGroups(t[4..]);
          if v3.None? || rest.None? then None
          else
            Some([v0.value * 4 + v1.value / 16, v1.value % 16 * 16 + v2.value / 4, v2.value % 4 * 64 + v3.value]
                 + rest.value)
  }

  /** `DecodeString` */
  function Decode(text: string): Option<seq<Byte>> { DecodeGroups(WithoutBreaks(text)) }

  /** No line breaks, and no set bits beyond the last byte. */
  predicate Canonical(text: string) {
    && (forall i | 0 <= i < |text| :: !IsBreak(text[i]))
    && CanonicalGroups(text)
  }

  predicate CanonicalGroups(t: string) {
    if |t| == 2 then SextetOf(t[1]).Some? && SextetOf(t[1]).value % 16 == 0
    else if |t| == 3 then SextetOf(t[2]).Some? && SextetOf(t[2]).value % 4 == 0
    else |t| < 4 || CanonicalGroups(t[4..])
  }

  // ----- encoding and decoding

  /** Three bytes as four sextets, and back. */
  lemma Regroup(x: Byte, y: Byte, z: Byte)
    ensures x / 4 * 4 + (x % 4 * 16 + y / 16) / 16 == x
    ensures (x % 4 * 16 + y / 16) % 16 * 16 + (y % 16 * 4 + z / 64) / 4 == y
    ensures (y % 16 * 4 + z / 64) % 4 * 64 + z % 64 == z
  {
  }

  lemma Ungroup(v0: Sextet, v1: Sextet, v2: Sextet, v3: Sextet)
    ensures var x, y, z := v0 * 4 + v1 / 16, v1 % 16 * 16 + v2 / 4, v2 % 4 * 64 + v3;
      && x / 4 == v0 && x % 4 * 16 + y / 16 == v1 && y % 16 * 4 + z / 64 == v2 && z % 64 == v3
      && x % 4 * 16 == v1 / 16 * 16 && y % 16 * 4 == v2 / 4 * 4
  {
  }

  /** The four symbols of a whole group spell the same number as its three bytes. */
  lemma GroupValue(b: seq<Byte>)
    requires |b| >= 3
    ensures |Encode(b)| >= 4 && forall i | 0 <= i < 4 :: SextetOf(Encode(b)[i]).Some?
    ensures var t := Encode(b);
      var v0: int, v1: int := SextetOf(t[0]).value, SextetOf(t[1]).value;
      var v2: int, v3: int := SextetOf(t[2]).value, SextetOf(t[3]).value;
      var x: int, y: int, z: int := b[0], b[1], b[2];
      ((v0 * 64 + v1) * 64 + v2) * 64 + v3 == (x * 256 + y) * 256 + z
  {
    hide SextetOf, Symbol;
    SymbolsDecode(b[0], b[1], b[2]);
  }

  /** A test vector of section 10 of RFC 4648, and one with both special symbols and a short last group. */
  lemma TestVectors()
    ensures Encode([0x66, 0x6f, 0x6f]) == "Zm9v"
    ensures Encode([0xfb, 0xff, 0xfe, 0xff]) == "-__-_w"
  {
    assert [0x66, 0x6f, 0x6f][3..] == [];
    assert [0xfb, 0xff, 0xfe, 0xff][3..] == [0xff];
  }

  lemma SymbolsDecode(x: Byte, y: Byte, z: Byte)
    ensures SextetOf(Symbol(x / 4)) == Some(x / 4)
    ensures SextetOf(Symbol(x % 4 * 16 + y / 16)) == Some(x % 4 * 16 + y / 16)
    ensures SextetOf(Symbol(y % 16 * 4 + z / 64)) == Some(y % 16 * 4 + z / 64)
    ensures SextetOf(Symbol(z % 64)) == Some(z % 64)
  {
    hide SextetOf, Symbol;
    SymbolExactly(Symbol(x / 4), x / 4);
    SymbolExactly(Symbol(x % 4 * 16 + y / 16), x % 4 * 16 + y / 16);
    SymbolExactly(Symbol(y % 16 * 4 + z / 64), y % 16 * 4 + z / 64);
    SymbolExactly(Symbol(z % 64), z % 64);
  }

  lemma {:induction false} DecodeOfEncoded(b: seq<Byte>)
    ensures DecodeGroups(Encode(b)) == Some(b)
  {
    hide SextetOf, Symbol;
    if b != [] {
      var y, z := if |b| > 1 then b[1] else 0, if |b| > 2 then b[2] else 0;
      SymbolsDecode(b[0], y, z);
      Regroup(b[0], y, z);
      if |b| >= 3 {
        DecodeOfEncoded(b[3..]);
        assert Encode(b)[4..] == Encode(b[3..]);
        assert b == [b[0], b[1], b[2]] + b[3..];
      } else if |b| == 2 {
        assert b == [b[0], b[1]];
      } else {
        assert b == [b[0]];
      }
    }
  }

  lemma {:induction false} NoBreaks(text: string)
    requires forall i | 0 <= i < |text| :: !IsBreak(text[i])
    ensures WithoutBreaks(text) == text
  {
    if text != "" { NoBreaks(text[1..]); }
  }

  lemma SymbolIsNoBreak(v: Sextet)
    ensures !IsBreak(Symbol(v))
  {
  }

  lemma {:induction false} EncodedIsCanonical(b: seq<Byte>)
    ensures Canonical(Encode(b))
  {
    hide SextetOf, Symbol, IsBreak;
    if b != [] {
      var y, z := if |b| > 1 then b[1] else 0, if |b| > 2 then b[2] else 0;
      SymbolsDecode(b[0], y, z);
      SymbolIsNoBreak(b[0] / 4);
      SymbolIsNoBreak(b[0] % 4 * 16 + y / 16);
      SymbolIsNoBreak(y % 16 * 4 + z / 64);
      SymbolIsNoBreak(z % 64);
      if |b| >= 3 {
        EncodedIsCanonical(b[3..]);
        assert Encode(b)[4..] == Encode(b[3..]);
      }
    }
  }

  lemma TwoSymbolsExactly(t: string)
    requires |t| == 2 && DecodeGroups(t).Some?
    ensures Encode(DecodeGroups(t).value) == t <==> CanonicalGroups(t)
  {
    hide SextetOf, Symbol;
    var v0, v1 := SextetOf(t[0]).value, SextetOf(t[1]).value;
    Ungroup(v0, v1, 0, 0);
    SymbolExactly(t[0], v0);
    SymbolExactly(t[1], v1 / 16 * 16);
    assert t == [t[0], t[1]];
  }

  lemma ThreeSymbolsExactly(t: string)
    requires |t| == 3 && DecodeGroups(t).Some?
    ensures Encode(DecodeGroups(t).value) == t <==> CanonicalGroups(t)
  {
    hide SextetOf, Symbol;
    var v0, v1, v2 := SextetOf(t[0]).value, SextetOf(t[1]).value, SextetOf(t[2]).value;
    Ungroup(v0, v1, v2, 0);
    SymbolExactly(t[0], v0);
    SymbolExactly(t[1], v1);
    SymbolExactly(t[2], v2 / 4 * 4);
    assert t == [t[0], t[1], t[2]];
  }

  lemma DecodeFirst(t: string)
    requires |t| >= 4 && DecodeGroups(t).Some?
    ensures SextetOf(t[0]).Some? && SextetOf(t[1]).Some? && SextetOf(t[2]).Some? && SextetOf(t[3]).Some?
    ensures var v0, v1, v2, v3 :=
      SextetOf(t[0]).value, SextetOf(t[1]).value, SextetOf(t[2]).value, SextetOf(t[3]).value;
      && DecodeGroups(t[4..]).Some?
      && DecodeGroups(t).value
         == [v0 * 4 + v1 / 16, v1 % 16 * 16 + v2 / 4, v2 % 4 * 64 + v3] + DecodeGroups(t[4..]).value
  {
    hide SextetOf;
  }

  lemma EncodeFirst(x: Byte, y: Byte, z: Byte, rest: seq<Byte>)
    ensures Encode([x, y, z] + rest)
         == [Symbol(x / 4), Symbol(x % 4 * 16 + y / 16), Symbol(y % 16 * 4 + z / 64), Symbol(z % 64)] + Encode(rest)
  {
    hide Symbol;
    assert ([x, y, z] + rest)[3..] == rest;
  }

  lemma FirstGroup(t: string)
    requires |t| >= 4 && DecodeGroups(t).Some?
    ensures var b := DecodeGroups(t).value;
      |b| >= 3 && DecodeGroups(t[4..]) == Some(b[3..]) && Encode(b) == t[..4] + Encode(b[3..])
  {
    hide SextetOf, Symbol, DecodeGroups, Encode;
    DecodeFirst(t);
    var v0, v1, v2, v3 :=
      SextetOf(t[0]).value, SextetOf(t[1]).value, SextetOf(t[2]).value, SextetOf(t[3]).value;
    Ungroup(v0, v1, v2, v3);
    var b, rest := DecodeGroups(t).value, DecodeGroups(t[4..]).value;
    assert b == [b[0], b[1], b[2]] + rest;
    EncodeFirst(b[0], b[1], b[2], rest);
    SymbolExactly(t[0], v0);
    SymbolExactly(t[1], v1);
    SymbolExactly(t[2], v2);
    SymbolExactly(t[3], v3);
  }

  /** Text without line breaks is what its bytes encode to exactly when its unused bits are clear. */
  lemma {:induction false} GroupsExactly(t: string)
    requires DecodeGroups(t).Some?
    ensures Encode(DecodeGroups(t).value) == t <==> CanonicalGroups(t)
  {
    if |t| >= 4 {
      hide DecodeGroups, Encode, SextetOf;
      FirstGroup(t);
      GroupsExactly(t[4..]);
      assert t == t[..4] + t[4..];
    } else if |t| == 3 {
      ThreeSymbolsExactly(t);
    } else if |t| == 2 {
      TwoSymbolsExactly(t);
    }
  }

  /** A text that decodes is the encoding of its bytes if and only if it is canonical. */
  lemma CanonicalExactly(text: string)
    requires Decode(text).Some?
    ensures Encode(Decode(text).value) == text <==> Canonical(text)
  {
    var b := Decode(text).value;
    if Canonical(text) {
      NoBreaks(text);
      GroupsExactly(text);
    }
    EncodedIsCanonical(b);
  }

  lemma RoundTrip(b: seq<Byte>)
    ensures Decode(Encode(b)) == Some(b)
  {
    EncodedIsCanonical(b);
    NoBreaks(Encode(b));
    DecodeOfEncoded(b);
  }

  /** A line feed or a carriage return changes no decoded byte, wherever it stands. */
  lemma {:induction false} BreakIsIgnored(before: string, after: string, c: char)
    requires c == '\n' || c == '\r'
    ensures WithoutBreaks(before + [c] + after) == WithoutBreaks(before + after)
    ensures Decode(before + [c] + after) == Decode(before + after)
  {
    var text := before + [c] + after;
    if before == "" {
      assert text[1..] == after && before + after == after;
    } else {
      BreakIsIgnored(before[1..], after, c);
      assert text[1..] == before[1..] + [c] + after && (before + after)[1..] == before[1..] + after;
    }
  }

  predicate IsSymbol(c: char) { 'A' <= c <= 'Z' || 'a' <= c <= 'z' || '0' <= c <= '9' || c == '-' || c == '_' }

  ghost predicate Symbols(t: string) { forall i | 0 <= i < |t| :: IsSymbol(t[i]) }

  lemma SymbolHasSextet(c: char)
    ensures SextetOf(c).Some? <==> IsSymbol(c)
  {
  }

  lemma {:induction false} GroupsDecode(t: string)
    ensures DecodeGroups(t).Some? <==> Symbols(t) && |t| % 4 != 1
  {
    hide SextetOf, IsSymbol;
    forall i | 0 <= i < |t| ensures SextetOf(t[i]).Some? <==> IsSymbol(t[i]) { SymbolHasSextet(t[i]); }
    if |t| >= 4 {
      GroupsDecode(t[4..]);
      assert t == t[..4] + t[4..];
    }
  }

  ghost predicate SymbolsAndBreaks(t: string) {
    forall i | 0 <= i < |t| :: IsSymbol(t[i]) || t[i] == '\n' || t[i] == '\r'
  }

  lemma {:induction false} SymbolsAreLeft(text: string)
    ensures Symbols(WithoutBreaks(text)) <==> SymbolsAndBreaks(text)
  {
    if text != "" {
      var rest := text[1..];
      SymbolsAreLeft(rest);
      assert text == [text[0]] + rest;
      assert SymbolsAndBreaks(text) <==> SymbolsAndBreaks([text[0]]) && SymbolsAndBreaks(rest);
      assert Symbols([text[0]] + WithoutBreaks(rest)) <==> IsSymbol(text[0]) && Symbols(WithoutBreaks(rest)) by {
        OneMoreSymbol(text[0], WithoutBreaks(rest));
      }
      assert SymbolsAndBreaks([text[0]]) <==> IsSymbol(text[0]) || IsBreak(text[0]);
    }
  }

  lemma OneMoreSymbol(c: char, t: string)
    ensures Symbols([c] + t) <==> IsSymbol(c) && Symbols(t)
  {
    assert ([c] + t)[0] == c;
    assert forall i | 0 <= i < |t| :: ([c] + t)[i + 1] == t[i];
  }

  /** A text decodes if and only if it is of symbols and line breaks, and its last group is not a single
      symbol. */
  lemma DecodesExactly(text: string)
    ensures Decode(text).Some? <==> SymbolsAndBreaks(text) && |WithoutBreaks(text)| % 4 != 1
  {
    SymbolsAreLeft(text);
    GroupsDecode(WithoutBreaks(text));
  }

  // ----- parameters

  /** A parameter as a decoder reads it. The empty text is a missing parameter. */
  datatype Parameter = Missing | Malformed | Encoded(bytes: seq<Byte>)

  function Read(text: string): Parameter {
    if text == "" then Missing
    else if Decode(text).None? then Malformed
    else Encoded(Decode(text).value)
  }

  lemma ReadEncoded(b: seq<Byte>)
    ensures Read(Encode(b)) == if b == [] then Missing else Encoded(b)
    ensures Encode(b) == "" <==> b == []
  {
    RoundTrip(b);
  }

  /** The texts a parameter can have: one canonical text, and others. */
  lemma ReadExactly(text: string, b: seq<Byte>)
    requires b != []
    ensures text == Encode(b) <==> Read(text) == Encoded(b) && Canonical(text)
  {
    ReadEncoded(b);
    EncodedIsCanonical(b);
    if Read(text) == Encoded(b) { CanonicalExactly(text); }
  }
}
