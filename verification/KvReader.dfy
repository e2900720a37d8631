/** Reading a printed object back: a reader for the printed subset of JSON, lookup of
    keys without regard to case, and the type and range checks of kv_deserialize. */
module KvReader {
  import opened Options
  import opened KvText
  import Base64
  import Bytes

  /// ---- The reader -----------------------------------------------------------------------

  datatype Json = JNumber(v: int) | JTrue | JFalse | JNull | JString(s: string)

  datatype Parsed<T> = Parsed(value: T, rest: string)

  predicate IsDigit(c: char) { '0' <= c <= '9' }

  function DigitValue(c: char): (d: nat)
    requires IsDigit(c)
    ensures d < 10
  {
    c as int - '0' as int
  }

  lemma DigitBack(d: nat)
    requires d < 10
    ensures IsDigit(Digit(d)) && DigitValue(Digit(d)) == d
  {
  }

  function SkipBlanks(s: string): (r: string)
    ensures |r| <= |s|
  {
    if s != "" && s[0] in " \t\r\n" then SkipBlanks(s[1..]) else s
  }

  /** Digits from the front, after a number already read. */
  function ReadDigits(s: string, acc: nat): (r: Parsed<nat>)
    ensures |r.rest| <= |s|
  {
    if s != "" && IsDigit(s[0]) then ReadDigits(s[1..], 10 * acc + DigitValue(s[0]))
    else Parsed(acc, s)
  }

  /** Up to the closing quote; escapes are not part of the subset. */
  function ReadString(s: string): (r: Option<Parsed<string>>)
    ensures r.Some? ==> |r.value.rest| < |s|
  {
    if s == "" || s[0] == '\\' then None
    else if s[0] == '"' then Some(Parsed("", s[1..]))
    else
      match ReadString(s[1..])
      case None => None
      case Some(p) => Some(Parsed([s[0]] + p.value, p.rest))
  }

  function ReadWord(s: string, word: string, j: Json): (r: Option<Parsed<Json>>)
    ensures r.Some? ==> |r.value.rest| <= |s|
  {
    if word <= s then Some(Parsed(j, s[|word|..])) else None
  }

  function ReadValue(s: string): (r: Option<Parsed<Json>>)
    ensures r.Some? ==> |r.value.rest| <= |s|
  {
    if s == "" then None
    else if s[0] == '"' then
      match ReadString(s[1..])
      case None => None
      case Some(p) => Some(Parsed(JString(p.value), p.rest))
    else if s[0] == '-' then
      if |s| > 1 && IsDigit(s[1]) then
        var p := ReadDigits(s[1..], 0);
        Some(Parsed(JNumber(0 - p.value), p.rest))
      else None
    else if IsDigit(s[0]) then
      var p := ReadDigits(s, 0);
      Some(Parsed(JNumber(p.value), p.rest))
    else if s[0] == 't' then ReadWord(s, "true", JTrue)
    else if s[0] == 'f' then ReadWord(s, "false", JFalse)
    else ReadWord(s, "null", JNull)
  }

  type Item = (string, Json)

  /** One member and the blanks around its parts. */
  function ReadMember(s: string): (r: Option<Parsed<Item>>)
    ensures r.Some? ==> |r.value.rest| < |s|
  {
    var s0 := SkipBlanks(s);
    if s0 == "" || s0[0] != '"' then None
    else
      match ReadString(s0[1..])
      case None => None
      case Some(key) =>
        var s1 := SkipBlanks(key.rest);
        if s1 == "" || s1[0] != ':' then None
        else
          match ReadValue(SkipBlanks(s1[1..]))
          case None => None
          case Some(p) => Some(Parsed((key.value, p.value), SkipBlanks(p.rest)))
  }

  /** Members up to the closing brace, in order. */
  function ReadMembers(s: string): Option<seq<Item>>
    decreases |s|
  {
    match ReadMember(s)
    case None => None
    case Some(p) =>
      if p.rest == "" then None
      else if p.rest[0] == '}' then Some([p.value])
      else if p.rest[0] != ',' then None
      else
        match ReadMembers(p.rest[1..])
        case None => None
        case Some(more) => Some([p.value] + more)
  }

  function ReadObject(text: string): Option<seq<Item>> {
    var s := SkipBlanks(text);
    if s == "" || s[0] != '{' then None
    else
      var s1 := SkipBlanks(s[1..]);
      if s1 != "" && s1[0] == '}' then Some([]) else ReadMembers(s1)
  }

  /// ---- What the printer prints is read back ------------------------------------------------

  predicate Clean(s: string) {
    forall i :: 0 <= i < |s| ==> s[i] != '"' && s[i] != '\\' && s[i] >= ' '
  }

  lemma {:induction false} ReadStringBack(s: string, rest: string)
    requires Clean(s)
    ensures ReadString(s + "\"" + rest) == Some(Parsed(s, rest))
    decreases |s|
  {
    if s == "" {
      assert s + "\"" + rest == "\"" + rest && ("\"" + rest)[1..] == rest;
    } else {
      assert (s + "\"" + rest)[1..] == s[1..] + "\"" + rest;
      ReadStringBack(s[1..], rest);
      assert [s[0]] + s[1..] == s;
    }
  }

  lemma ReadDigit(d: nat, rest: string, acc: nat)
    requires d < 10
    ensures ReadDigits([Digit(d)] + rest, acc) == ReadDigits(rest, 10 * acc + d)
  {
    DigitBack(d);
    assert ([Digit(d)] + rest)[1..] == rest;
    hide Digit, DigitValue, IsDigit;
  }

  lemma {:induction false} ReadDigitsBack(n: nat, rest: string)
    ensures ReadDigits(Digits(n) + rest, 0) == ReadDigits(rest, n)
    ensures IsDigit(Digits(n)[0])
    decreases n
  {
    hide ReadDigits, Digit, IsDigit;
    DigitBack(n % 10);
    if n < 10 {
      ReadDigit(n, rest, 0);
    } else {
      var last := [Digit(n % 10)];
      ReadDigitsBack(n / 10, last + rest);
      assert Digits(n) + rest == Digits(n / 10) + (last + rest);
      ReadDigit(n % 10, rest, n / 10);
    }
  }

  /** What a field's value is in JSON. */
  function JsonOf(f: Field): Json
    requires Typed(f) && f.kind != Unknown
  {
    match f.value
    case Num(v) => JNumber(v)
    case Flag(b) => if b then JTrue else JFalse
    case Text(s) => if s == "" then JNull else JString(s)
    case Blob(data) => if f.len == 0 then JNull else JString(Base64.Encode(data))
  }

  predicate CleanField(f: Field) {
    Clean(f.key) && (f.value.Text? ==> Clean(f.value.s))
  }

  lemma ReadDigitsEnd(rest: string, n: nat)
    requires rest != "" && !IsDigit(rest[0])
    ensures ReadDigits(rest, n) == Parsed(n, rest)
  {
  }

  lemma ReadNatural(s: string)
    requires s != "" && IsDigit(s[0])
    ensures ReadValue(s) == Some(Parsed(JNumber(ReadDigits(s, 0).value), ReadDigits(s, 0).rest))
    ensures ReadValue("-" + s) == Some(Parsed(JNumber(0 - ReadDigits(s, 0).value), ReadDigits(s, 0).rest))
  {
    assert ("-" + s)[1..] == s && ("-" + s)[1] == s[0];
    hide ReadDigits;
  }

  lemma ReadDecimalBack(v: int, rest: string)
    requires rest != "" && !IsDigit(rest[0])
    ensures ReadValue(Decimal(v) + rest) == Some(Parsed(JNumber(v), rest))
  {
    hide Digits, IsDigit, ReadDigits, ReadValue;
    var n := if v < 0 then -v else v;
    var s := Digits(n) + rest;
    assert s[0] == Digits(n)[0];
    ReadDigitsBack(n, rest);
    ReadDigitsEnd(rest, n);
    ReadNatural(s);
    if v < 0 {
      assert Decimal(v) + rest == "-" + s;
    }
  }

  lemma ReadWordBack(word: string, j: Json, rest: string)
    ensures ReadWord(word + rest, word, j) == Some(Parsed(j, rest))
  {
  }

  lemma ReadQuotedBack(s: string, rest: string)
    requires Clean(s)
    ensures ReadValue("\"" + s + "\"" + rest) == Some(Parsed(JString(s), rest))
  {
    assert ("\"" + s + "\"" + rest)[1..] == s + "\"" + rest;
    ReadStringBack(s, rest);
  }

  lemma ReadWordsBack(rest: string)
    ensures ReadValue("true" + rest) == Some(Parsed(JTrue, rest))
    ensures ReadValue("false" + rest) == Some(Parsed(JFalse, rest))
    ensures ReadValue("null" + rest) == Some(Parsed(JNull, rest))
  {
    ReadWordBack("true", JTrue, rest);
    ReadWordBack("false", JFalse, rest);
    ReadWordBack("null", JNull, rest);
    hide ReadWord;
  }

  lemma CleanBase64(data: seq<Bytes.Byte>)
    ensures Clean(Base64.Encode(data))
  {
    Base64.EncodePlain(data);
    hide Base64.Encode;
  }

  lemma ReadValueBack(f: Field, rest: string)
    requires Typed(f) && f.kind != Unknown && CleanField(f) && rest != "" && !IsDigit(rest[0])
    ensures ReadValue(ValueText(f) + rest) == Some(Parsed(JsonOf(f), rest))
    ensures ValueText(f) != "" && ValueText(f)[0] !in " \t\r\n"
  {
    hide Clean, Decimal, IsDigit, ReadValue;
    ReadWordsBack(rest);
    match f.value {
      case Num(v) => ReadDecimalBack(v, rest); DecimalFront(v);
      case Flag(b) =>
      case Text(s) => if s != "" { ReadQuotedBack(s, rest); }
      case Blob(data) =>
        if f.len != 0 {
          CleanBase64(data);
          ReadQuotedBack(Base64.Encode(data), rest);
        }
    }
  }

  lemma DecimalFront(v: int)
    ensures |Decimal(v)| > 0 && Decimal(v)[0] !in " \t\r\n"
  {
    ReadDigitsBack(if v < 0 then -v else v, "");
  }

  /// ---- The whole object -------------------------------------------------------------------

  function ItemOf(f: Field): Item
    requires Typed(f) && f.kind != Unknown
  {
    (f.key, JsonOf(f))
  }

  predicate CleanAll(db: seq<Field>) {
    Printable(db) && forall i :: 0 <= i < |db| ==> CleanField(db[i])
  }

  function Items(db: seq<Field>): seq<Item>
    requires Printable(db)
  {
    if db == [] then [] else [ItemOf(db[0])] + Items(db[1..])
  }

  /** The members of a list from the front, with the end of the object behind the last. */
  function Tail(db: seq<Field>): string
    requires Printable(db)
  {
    if db == [] then ""
    else KeyText(db[0]) + ValueText(db[0]) + (if |db| == 1 then " }" else "," + Tail(db[1..]))
  }

  lemma SkipNothing(s: string)
    requires s == "" || s[0] !in " \t\r\n"
    ensures SkipBlanks(s) == s
  {
  }

  /** Reading one printed member, up to the comma or brace. */
  lemma ReadMemberBack(f: Field, rest: string)
    requires Typed(f) && f.kind != Unknown && CleanField(f) && rest != "" && !IsDigit(rest[0])
    ensures ReadMember(KeyText(f) + ValueText(f) + rest) == Some(Parsed(ItemOf(f), SkipBlanks(rest)))
  {
    hide Clean, IsDigit, JsonOf, ReadString, ReadValue, SkipBlanks, ValueText;
    var value := ValueText(f) + rest;
    var s := KeyText(f) + ValueText(f) + rest;
    assert s == "\"" + (f.key + "\"" + (":" + value));
    assert s[1..] == f.key + "\"" + (":" + value);
    SkipNothing(s);
    ReadStringBack(f.key, ":" + value);
    SkipNothing(":" + value);
    assert (":" + value)[1..] == value;
    ReadValueBack(f, rest);
    SkipNothing(value);
  }

  lemma {:induction false} ReadMembersBack(db: seq<Field>)
    requires CleanAll(db) && db != []
    ensures ReadMembers(Tail(db)) == Some(Items(db))
    decreases |db|
  {
    hide CleanField, IsDigit, ItemOf, KeyText, ReadMember, SkipBlanks, ValueText;
    var rest := if |db| == 1 then " }" else "," + Tail(db[1..]);
    Ends(Tail(db[1..]));
    ReadMemberBack(db[0], rest);
    if |db| == 1 {
      assert db[1..] == [];
      assert Items(db) == [ItemOf(db[0])];
      assert Tail(db) == KeyText(db[0]) + ValueText(db[0]) + " }";
    } else {
      assert ("," + Tail(db[1..]))[1..] == Tail(db[1..]);
      ReadMembersBack(db[1..]);
    }
  }

  lemma Ends(more: string)
    ensures SkipBlanks(" }") == "}" && SkipBlanks("," + more) == "," + more && !IsDigit(' ') && !IsDigit(',')
  {
    assert " }"[1..] == "}";
    SkipNothing("}");
    SkipNothing("," + more);
  }

  lemma {:induction false} TailSnoc(a: seq<Field>, f: Field)
    requires Printable(a + [f])
    ensures Printable(a) && Tail(a + [f]) == Front(a) + (KeyText(f) + ValueText(f) + " }")
    decreases |a|
  {
    hide KeyText, Typed, ValueText;
    PrintableParts(a, f);
    if a == [] {
      assert a + [f] == [f];
    } else {
      assert (a + [f])[1..] == a[1..] + [f];
      TailSnoc(a[1..], f);
    }
  }

  lemma PrintableParts(a: seq<Field>, f: Field)
    requires Printable(a + [f])
    ensures Printable(a) && Printable(a[if a == [] then 0 else 1..]) && Printable(a[if a == [] then 0 else 1..] + [f])
  {
  }

  /** Members with their commas, from the front. */
  function Front(db: seq<Field>): string
    requires Printable(db)
  {
    if db == [] then "" else Member(db[0]) + Front(db[1..])
  }

  lemma {:induction false} FrontSnoc(a: seq<Field>, f: Field)
    requires Printable(a + [f])
    ensures Printable(a) && Front(a + [f]) == Front(a) + Member(f)
    decreases |a|
  {
    hide Member, Typed;
    PrintableParts(a, f);
    if a == [] {
      assert a + [f] == [f];
    } else {
      assert (a + [f])[1..] == a[1..] + [f];
      FrontSnoc(a[1..], f);
    }
  }

  lemma {:induction false} FrontIs(db: seq<Field>)
    requires Printable(db)
    ensures Front(db) == Members(db)
    decreases |db|
  {
    hide Member, Typed;
    if db != [] {
      var n := |db| - 1;
      assert db == db[..n] + [db[n]];
      FrontIs(db[..n]);
      FrontSnoc(db[..n], db[n]);
    }
  }

  lemma ObjectIs(db: seq<Field>)
    requires Printable(db) && db != []
    ensures ObjectText(db) == "{" + Tail(db)
  {
    hide KeyText, Members, Front, Tail, Typed, ValueText;
    var n := |db| - 1;
    assert db == db[..n] + [db[n]];
    TailSnoc(db[..n], db[n]);
    FrontIs(db[..n]);
  }

  lemma TailStart(db: seq<Field>)
    requires Printable(db) && db != []
    ensures Tail(db) != "" && Tail(db)[0] == '"'
  {
  }

  /** The reader undoes the printer. */
  lemma ReadObjectBack(db: seq<Field>)
    requires CleanAll(db)
    ensures ReadObject(ObjectText(db)) == Some(Items(db))
  {
    if db == [] {
      SkipNothing("{}");
      assert "{}"[1..] == "}";
      SkipNothing("}");
    } else {
      hide Items, ReadMembers, SkipBlanks, Tail, ObjectText;
      ObjectIs(db);
      TailStart(db);
      SkipNothing("{" + Tail(db));
      assert ("{" + Tail(db))[1..] == Tail(db);
      SkipNothing(Tail(db));
      ReadMembersBack(db);
    }
  }
}
