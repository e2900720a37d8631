/** The text form of raw fields: base64 in the sense of section 4 of RFC 4648, as
    components/utilities/src/mix_method.c gets it from its library. */
module Base64 {
  import opened Bytes
  import opened Options

  const PAD := '='

  function Symbol(v: nat): char
    requires v < 64
  {
    if v < 26 then 'A' + v as char
    else if v < 52 then 'a' + (v - 26) as char
    else if v < 62 then '0' + (v - 52) as char
    else if v == 62 then '+'
    else '/'
  }

  /** The alphabet of table 1 in RFC 4648: capitals, small letters, digits, plus, slash. */
  lemma SymbolTable(v: nat)
    ensures Symbol(0) == 'A' && Symbol(25) == 'Z' && Symbol(26) == 'a' && Symbol(51) == 'z'
    ensures Symbol(52) == '0' && Symbol(61) == '9' && Symbol(62) == '+' && Symbol(63) == '/'
    ensures v < 25 || 26 <= v < 51 || 52 <= v < 61 ==> Symbol(v + 1) as int == Symbol(v) as int + 1
  {
  }

  function SymbolValue(c: char): (v: Option<nat>)
    ensures v.Some? ==> v.value < 64
  {
    if 'A' <= c <= 'Z' then Some((c - 'A') as nat)
    else if 'a' <= c <= 'z' then Some((c - 'a') as nat + 26)
    else if '0' <= c <= '9' then Some((c - '0') as nat + 52)
    else if c == '+' then Some(62)
    else if c == '/' then Some(63)
    else None
  }

  lemma SymbolBack(v: nat)
    requires v < 64
    ensures SymbolValue(Symbol(v)) == Some(v) && Symbol(v) != PAD
    ensures Symbol(v) != '"' && Symbol(v) != '\\' && Symbol(v) >= ' '
  {
  }

  /** Nothing but a symbol has a value. */
  lemma SymbolOnly(c: char)
    ensures SymbolValue(c).Some? ==> Symbol(SymbolValue(c).value) == c
    ensures SymbolValue(PAD).None?
  {
  }

  /** Three bytes become four symbols; what is missing at the end is padded. */
  function Encode(data: seq<Byte>): string {
    if data == [] then ""
    else if |data| == 1 then [Symbol(data[0] / 4), Symbol(data[0] % 4 * 16), PAD, PAD]
    else if |data| == 2 then
      [Symbol(data[0] / 4), Symbol(data[0] % 4 * 16 + data[1] / 16), Symbol(data[1] % 16 * 4), PAD]
    else
      [Symbol(data[0] / 4), Symbol(data[0] % 4 * 16 + data[1] / 16),
       Symbol(data[1] % 16 * 4 + data[2] / 64), Symbol(data[2] % 64)] + Encode(data[3..])
  }

  /** A group of three bytes is one number of 24 bits, most significant byte first, and
      so are its four symbols; at the end, missing bytes count as zero and a symbol
      without any bit of the data is padding. */
  lemma EncodeGroups(data: seq<Byte>) returns (a: nat, b: nat, c: nat, d: nat)
    requires data != []
    ensures a < 64 && b < 64 && c < 64 && d < 64
    ensures
      var n, s := |data|, Encode(data);
      var y, z := if n > 1 then data[1] else 0, if n > 2 then data[2] else 0;
      && 0x10000 * (data[0] as int) + 0x100 * (y as int) + z as int == 0x40000 * a + 0x1000 * b + 0x40 * c + d
      && |s| >= 4 && s[0] == Symbol(a) && s[1] == Symbol(b)
      && s[2] == (if n > 1 then Symbol(c) else PAD) && s[3] == (if n > 2 then Symbol(d) else PAD)
      && s[4..] == if n > 3 then Encode(data[3..]) else ""
  {
    var y, z := if |data| > 1 then data[1] else 0, if |data| > 2 then data[2] else 0;
    a, b, c, d := data[0] / 4, data[0] % 4 * 16 + y / 16, y % 16 * 4 + z / 64, z % 64;
    hide Symbol;
    if |data| == 3 {
      assert data[3..] == [];
    }
  }

  /** The bytes of two, three or four symbols. */
  function Two(a: nat, b: nat): seq<Byte>
    requires a < 64 && b < 64
  {
    [a * 4 + b / 16]
  }

  function Three(a: nat, b: nat, c: nat): seq<Byte>
    requires a < 64 && b < 64 && c < 64
  {
    [a * 4 + b / 16, b % 16 * 16 + c / 4]
  }

  function Four(a: nat, b: nat, c: nat, d: nat): seq<Byte>
    requires a < 64 && b < 64 && c < 64 && d < 64
  {
    [a * 4 + b / 16, b % 16 * 16 + c / 4, c % 4 * 64 + d]
  }

  function Decode(s: string): Option<seq<Byte>> {
    if s == "" then Some([])
    else if |s| < 4 then None
    else
      var a, b, c, d := SymbolValue(s[0]), SymbolValue(s[1]), SymbolValue(s[2]), SymbolValue(s[3]);
      if a.None? || b.None? then None
      else if s[2..] == [PAD, PAD] then Some(Two(a.value, b.value))
      else if c.None? then None
      else if s[3..] == [PAD] then Some(Three(a.value, b.value, c.value))
      else if d.None? then None
      else
        match Decode(s[4..])
        case None => None
        case Some(rest) => Some(Four(a.value, b.value, c.value, d.value) + rest)
  }

  lemma FourBack(x: Byte, y: Byte, z: Byte)
    ensures x % 4 * 16 + y / 16 < 64 && y % 16 * 4 + z / 64 < 64
    ensures Four(x / 4, x % 4 * 16 + y / 16, y % 16 * 4 + z / 64, z % 64) == [x, y, z]
    ensures Three(x / 4, x % 4 * 16 + y / 16, y % 16 * 4) == [x, y]
    ensures Two(x / 4, x % 4 * 16) == [x]
  {
    assert (x % 4 * 16 + y / 16) / 16 == x % 4 && (x % 4 * 16 + y / 16) % 16 == y / 16;
    assert (y % 16 * 4 + z / 64) / 4 == y % 16 && (y % 16 * 4 + z / 64) % 4 == z / 64;
  }

  lemma DecodeTwo(a: nat, b: nat)
    requires a < 64 && b < 64
    ensures Decode([Symbol(a), Symbol(b), PAD, PAD]) == Some(Two(a, b))
  {
    SymbolBack(a);
    SymbolBack(b);
    hide Symbol, SymbolValue, Two;
    assert [Symbol(a), Symbol(b), PAD, PAD][2..] == [PAD, PAD];
  }

  lemma DecodeThree(a: nat, b: nat, c: nat)
    requires a < 64 && b < 64 && c < 64
    ensures Decode([Symbol(a), Symbol(b), Symbol(c), PAD]) == Some(Three(a, b, c))
  {
    SymbolBack(a);
    SymbolBack(b);
    SymbolBack(c);
    hide Symbol, SymbolValue, Three;
    var s := [Symbol(a), Symbol(b), Symbol(c), PAD];
    assert s[2..][0] != PAD && s[3..] == [PAD];
  }

  lemma DecodeFour(a: nat, b: nat, c: nat, d: nat, rest: string)
    requires a < 64 && b < 64 && c < 64 && d < 64 && Decode(rest).Some?
    ensures Decode([Symbol(a), Symbol(b), Symbol(c), Symbol(d)] + rest) == Some(Four(a, b, c, d) + Decode(rest).value)
  {
    SymbolBack(a);
    SymbolBack(b);
    SymbolBack(c);
    SymbolBack(d);
    hide Symbol, SymbolValue, Four;
    var s := [Symbol(a), Symbol(b), Symbol(c), Symbol(d)] + rest;
    assert s[2..][0] != PAD && s[3..][0] != PAD && s[4..] == rest;
  }

  /** Decoding undoes encoding. */
  lemma {:induction false} DecodeEncode(data: seq<Byte>)
    ensures Decode(Encode(data)) == Some(data)
    decreases |data|
  {
    hide Decode, Symbol, Two, Three, Four;
    DecodeNothing();
    if data != [] {
      var x, y, z := data[0], if |data| > 1 then data[1] else 0, if |data| > 2 then data[2] else 0;
      FourBack(x, y, z);
      if |data| == 1 {
        DecodeTwo(x / 4, x % 4 * 16);
        assert data == [x];
      } else if |data| == 2 {
        DecodeThree(x / 4, x % 4 * 16 + y / 16, y % 16 * 4);
        assert data == [x, y];
      } else {
        DecodeEncode(data[3..]);
        DecodeFour(x / 4, x % 4 * 16 + y / 16, y % 16 * 4 + z / 64, z % 64, Encode(data[3..]));
        assert data == [x, y, z] + data[3..];
      }
    }
  }

  lemma DecodeNothing()
    ensures Decode("") == Some([])
  {
  }

  /** What decodes consists of whole groups of symbols, padded in the last group only. */
  lemma {:induction false} DecodeOnly(s: string)
    requires Decode(s).Some?
    ensures |s| % 4 == 0
    ensures forall i :: 0 <= i < |s| && SymbolValue(s[i]).None? ==> s[i] == PAD && i >= |s| - 2
    ensures |s| > 0 && s[|s| - 2] == PAD ==> s[|s| - 1] == PAD
    decreases |s|
  {
    hide Symbol, SymbolValue, Two, Three, Four;
    SymbolOnly(PAD);
    if s != "" {
      assert |s| >= 4;
      if s[2..] == [PAD, PAD] {
        assert |s| == 4 && s[2] == PAD && s[3] == PAD;
      } else if s[3..] == [PAD] {
        assert |s| == 4 && s[3] == PAD;
      } else {
        DecodeOnly(s[4..]);
        assert forall i :: 4 <= i < |s| ==> s[i] == s[4..][i - 4];
      }
    }
  }

  /** Four symbols for every three bytes begun. */
  lemma {:induction false} EncodeLength(data: seq<Byte>)
    ensures |Encode(data)| == |data| / 3 * 4 + if |data| % 3 == 0 then 0 else 4
    decreases |data|
  {
    hide Symbol;
    if |data| > 2 {
      EncodeLength(data[3..]);
      assert |data| / 3 == |data[3..]| / 3 + 1;
    }
  }

  /** The text needs no escapes inside a JSON string. */
  lemma {:induction false} EncodePlain(data: seq<Byte>)
    ensures forall i :: 0 <= i < |Encode(data)| ==>
              Encode(data)[i] != '"' && Encode(data)[i] != '\\' && Encode(data)[i] >= ' '
    decreases |data|
  {
    if data != [] {
      var x, y, z := data[0], if |data| > 1 then data[1] else 0, if |data| > 2 then data[2] else 0;
      FourBack(x, y, z);
      SymbolBack(x / 4);
      SymbolBack(x % 4 * 16 + y / 16);
      SymbolBack(y % 16 * 4 + z / 64);
      SymbolBack(z % 64);
      hide Symbol;
      if |data| > 2 {
        EncodePlain(data[3..]);
      }
    }
  }
}
