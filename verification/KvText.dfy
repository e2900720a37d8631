/** The text of a record of settings: an object in the sense of section 4 of RFC 8259,
    as the serializer of components/tal_kv/src/kv_serialize.c prints it, and a reader
    for objects of numbers, literals and strings without escapes. */
module KvText {
  import Base64
  import Bytes

  /// ---- Fields -------------------------------------------------------------------------

  datatype Kind = Char | Byte | Short | UShort | Int | Bool | Str | Raw | Unknown {
    predicate Number() { Char? || Byte? || Short? || UShort? || Int? }
  }

  datatype Value = Num(v: int) | Flag(b: bool) | Text(s: string) | Blob(data: seq<Bytes.Byte>)

  datatype Field = Field(key: string, kind: Kind, value: Value, len: nat)

  predicate InRange(kind: Kind, v: int) {
    match kind
    case Char => -128 <= v <= 127
    case Byte => 0 <= v <= 255
    case Short => -32768 <= v <= 32767
    case UShort => 0 <= v <= 65535
    case _ => -0x8000_0000 <= v <= 0x7fff_ffff
  }

  /** The value is one that a variable of the field's type can hold. */
  predicate Typed(f: Field) {
    match f.kind
    case Bool => f.value.Flag?
    case Str => f.value.Text? && |f.value.s| <= f.len
    case Raw => f.value.Blob? && |f.value.data| == f.len
    case Unknown => true
    case _ => f.value.Num? && InRange(f.kind, f.value.v)
  }

  /// ---- Printing -------------------------------------------------------------------------

  function Digit(d: nat): char
    requires d < 10
  {
    '0' + d as char
  }

  function Digits(n: nat): (s: string)
    ensures |s| > 0
  {
    if n < 10 then [Digit(n)] else Digits(n / 10) + [Digit(n % 10)]
  }

  /** What %d prints. */
  function Decimal(v: int): string {
    if v < 0 then "-" + Digits(-v) else Digits(v)
  }

  function Pow10(k: nat): (p: nat)
    ensures p > 0
  {
    if k == 0 then 1 else 10 * Pow10(k - 1)
  }

  lemma {:induction false} DigitsLength(n: nat, k: nat)
    requires k > 0 && n < Pow10(k)
    ensures |Digits(n)| <= k
    decreases k
  {
    if n >= 10 {
      DigitsLength(n / 10, k - 1);
    }
  }

  /** What a row of digits means: each counts ten times the one behind it. */
  function PlaceValue(s: string): int {
    if s == "" then 0 else (s[0] as int - '0' as int) * Pow10(|s| - 1) + PlaceValue(s[1..])
  }

  lemma {:induction false} PlaceValueSnoc(s: string, c: char)
    ensures PlaceValue(s + [c]) == 10 * PlaceValue(s) + (c as int - '0' as int)
  {
    if s == "" {
      assert s + [c] == [c] && [c][1..] == "" && Pow10(0) == 1;
    } else {
      PlaceValueSnoc(s[1..], c);
      assert (s + [c])[1..] == s[1..] + [c];
      assert Pow10(|s|) == 10 * Pow10(|s| - 1);
      var d := s[0] as int - '0' as int;
      assert d * (10 * Pow10(|s| - 1)) == 10 * (d * Pow10(|s| - 1));
    }
  }

  /** The digits printed are decimal digits without a leading zero, and their value is
      the number. */
  lemma {:induction false} DigitsValue(n: nat)
    ensures PlaceValue(Digits(n)) == n
    ensures forall i :: 0 <= i < |Digits(n)| ==> '0' <= Digits(n)[i] <= '9'
    ensures Digits(n)[0] == '0' <==> n == 0
    decreases n
  {
    if n < 10 {
      assert Digits(n) == [Digit(n)] && "" + [Digit(n)] == [Digit(n)];
      PlaceValueSnoc("", Digit(n));
    } else {
      DigitsValue(n / 10);
      PlaceValueSnoc(Digits(n / 10), Digit(n % 10));
      assert Digits(n)[0] == Digits(n / 10)[0];
    }
  }

  /** A sign comes in front of negative numbers only. */
  lemma DecimalValue(v: int)
    ensures v >= 0 ==> PlaceValue(Decimal(v)) == v && Decimal(v)[0] != '-'
    ensures v < 0 ==> Decimal(v)[0] == '-' && PlaceValue(Decimal(v)[1..]) == -v
  {
    DigitsValue(if v < 0 then -v else v);
    assert v < 0 ==> Decimal(v)[1..] == Digits(-v);
  }

  lemma PrintedParts()
    ensures Digits(12) == "12" && Base64.Encode([1]) == "AQ=="
  {
    assert Digits(12) == Digits(1) + [Digit(2)];
  }

  /** Members of every kind, spelled out. */
  lemma PrintedMembers()
    ensures Member(Field("a", Int, Num(-12), 4)) == "\"a\":-12,"
    ensures Member(Field("b", Bool, Flag(true), 1)) == "\"b\":true,"
    ensures Member(Field("c", Bool, Flag(false), 1)) == "\"c\":false,"
    ensures Member(Field("d", Str, Text("xy"), 8)) == "\"d\":\"xy\","
    ensures Member(Field("e", Str, Text(""), 8)) == "\"e\":null,"
    ensures Member(Field("f", Raw, Blob([1]), 1)) == "\"f\":\"AQ==\","
    ensures Member(Field("g", Raw, Blob([]), 0)) == "\"g\":null,"
  {
    hide Digits, Base64.Encode;
    PrintedParts();
  }

  /** Objects put them between braces, with a blank where the last comma was. */
  lemma PrintedObject(f: Field, g: Field)
    requires Printable([f, g])
    ensures ObjectText([]) == "{}"
    ensures ObjectText([f, g]) == "{" + Member(f) + Member(g)[..|Member(g)| - 1] + " }"
    ensures Member(g)[|Member(g)| - 1] == ','
  {
    hide KeyText, Typed, ValueText;
    assert [f, g][..1] == [f] && [f][..0] == [];
    assert Printable([f]) && Printable([]);
    assert Members([f]) == Members([]) + Member(f) == Member(f);
    var text := KeyText(g) + ValueText(g);
    assert Member(g) == text + "," && Member(g)[..|Member(g)| - 1] == text;
    assert [f, g][1] == g && ObjectText([f, g]) == "{" + Members([f]) + KeyText(g) + ValueText(g) + " }";
    assert "{" + Member(f) + KeyText(g) + ValueText(g) == "{" + Member(f) + text;
  }

  /** A 32-bit number takes at most eleven characters. */
  lemma DecimalLength(v: int)
    requires -0x8000_0000 <= v <= 0x7fff_ffff
    ensures |Decimal(v)| <= 11
  {
    assert Pow10(2) == 100 && Pow10(4) == 10000 && Pow10(6) == 1000000;
    assert Pow10(8) == 100000000;
    assert Pow10(10) == 10000000000;
    DigitsLength(if v < 0 then -v else v, 10);
  }

  function ValueText(f: Field): string
    requires Typed(f) && f.kind != Unknown
  {
    match f.value
    case Num(v) => Decimal(v)
    case Flag(b) => if b then "true" else "false"
    case Text(s) => if s == "" then "null" else "\"" + s + "\""
    case Blob(data) => if f.len == 0 then "null" else "\"" + Base64.Encode(data) + "\""
  }

  function KeyText(f: Field): string { "\"" + f.key + "\":" }

  function Member(f: Field): string
    requires Typed(f) && f.kind != Unknown
  {
    KeyText(f) + ValueText(f) + ","
  }

  predicate Printable(db: seq<Field>) {
    forall f :: f in db ==> Typed(f) && f.kind != Unknown
  }

  function Members(db: seq<Field>): string
    requires Printable(db)
  {
    if db == [] then "" else Members(db[..|db| - 1]) + Member(db[|db| - 1])
  }

  /** The printed object: the comma behind the last member becomes a blank. */
  function ObjectText(db: seq<Field>): string
    requires Printable(db)
  {
    if db == [] then "{}"
    else "{" + Members(db[..|db| - 1]) + KeyText(db[|db| - 1]) + ValueText(db[|db| - 1]) + " }"
  }

  /// ---- The bound of the first pass ------------------------------------------------------

  /** What the first pass adds for a field. */
  function Budget(f: Field): nat {
    (match f.kind
     case Bool => 6 + 6
     case Str => if f.value == Text("") then f.len + 4 + 4 else f.len + 6
     case Raw => f.len / 3 * 4 + (if f.len % 3 == 0 then 0 else 4) + (if f.len == 0 then 4 + 4 else 6)
     case Unknown => 0
     case _ => 11 + 6)
    + |f.key| + 2
  }

  function Budgets(db: seq<Field>): nat {
    if db == [] then 0 else Budget(db[0]) + Budgets(db[1..])
  }

  /** A member never takes more than its budget. */
  lemma MemberFits(f: Field)
    requires Typed(f) && f.kind != Unknown
    ensures |Member(f)| <= Budget(f)
  {
    if f.value.Num? {
      DecimalLength(f.value.v);
    }
    if f.value.Blob? {
      Base64.EncodeLength(f.value.data);
    }
  }
}
