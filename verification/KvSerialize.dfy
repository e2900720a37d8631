/** kv_serialize and kv_deserialize: the buffer of the first pass is large enough for
    the second, and what was printed is restored. */
module KvSerialize {
  import opened Bytes
  import opened Options
  import opened KvText
  import opened KvReader
  import Base64

  const NUL := '\0'

  /// ---- Printing into the buffer -----------------------------------------------------------

  datatype Code = Done | ParseError | GetError | ComError

  /** sprintf at an offset: the text and a terminator. */
  method Sprintf(buf: array<char>, offset: nat, s: string) returns (n: nat)
    requires offset + |s| + 1 <= buf.Length
    modifies buf
    ensures n == |s| && buf[..offset] == old(buf[..offset]) && buf[offset..offset + n] == s && buf[offset + n] == NUL
  {
    forall k | 0 <= k < |s| {
      buf[offset + k] := s[k];
    }
    buf[offset + |s|] := NUL;
    n := |s|;
  }

  lemma BudgetsCut(db: seq<Field>, i: nat)
    requires i < |db|
    ensures Budgets(db[i..]) == Budget(db[i]) + Budgets(db[i + 1..])
  {
    assert db[i..][1..] == db[i + 1..];
  }

  /** The first pass. */
  method Measure(db: seq<Field>) returns (len: nat)
    ensures len == Budgets(db) + 3
  {
    len := 0;
    assert db[0..] == db;
    for i := 0 to |db|
      invariant len + Budgets(db[i..]) == Budgets(db)
    {
      BudgetsCut(db, i);
      var f := db[i];
      if f.kind.Number() {
        len := len + 11 + 6;
      } else if f.kind == Bool {
        len := len + 6 + 6;
      } else if f.kind == Str {
        if f.value == Text("") {
          len := len + f.len + 4 + 4;
        } else {
          len := len + f.len + 6;
        }
      } else if f.kind == Raw {
        len := len + f.len / 3 * 4 + (if f.len % 3 == 0 then 0 else 4);
        len := len + if f.len == 0 then 4 + 4 else 6;
      }
      len := len + |f.key| + 2;
    }
    len := len + 3;
  }

  /** Printing one more piece behind those already there. */
  method Append(buf: array<char>, offset: nat, s: string, ghost text: string) returns (offset': nat)
    requires offset + |s| + 1 <= buf.Length && buf[..offset] == text
    modifies buf
    ensures offset' == offset + |s| && buf[..offset'] == text + s
  {
    var n := Sprintf(buf, offset, s);
    offset' := offset + n;
    assert buf[..offset'] == buf[..offset] + buf[offset..offset'];
  }

  /** The buffer of the first pass holds every entry of the second, with its transient
      terminators, on top of all that went before. */
  method PrintMember(buf: array<char>, offset: nat, f: Field, ghost text: string) returns (ok: bool, offset': nat)
    requires offset + Budget(f) + 2 <= buf.Length && buf[..offset] == text && Typed(f)
    modifies buf
    ensures ok <==> f.kind != Unknown
    ensures ok ==> offset' == offset + |Member(f)| <= offset + Budget(f) && buf[..offset'] == text + Member(f)
  {
    hide Decimal;
    offset' := Append(buf, offset, KeyText(f), text);
    if f.kind == Unknown {
      return false, offset';
    }
    MemberFits(f);
    offset' := Append(buf, offset', ValueText(f), text + KeyText(f));
    offset' := Append(buf, offset', ",", text + KeyText(f) + ValueText(f));
    ok := true;
    assert text + KeyText(f) + ValueText(f) + "," == text + Member(f);
  }

  /** The second pass over all entries. */
  method PrintAll(db: seq<Field>, buf: array<char>) returns (ok: bool, offset: nat)
    requires (forall i :: 0 <= i < |db| ==> Typed(db[i])) && buf.Length == Budgets(db) + 3
    modifies buf
    ensures ok <==> Printable(db)
    ensures ok ==> offset + 2 <= buf.Length && buf[..offset] == "{" + Members(db)
  {
    hide Budget, Budgets, Member, Members, Typed;
    NoMembers(db);
    offset := Append(buf, 0, "{", "");
    for i := 0 to |db|
      invariant Printable(db[..i]) && offset + Budgets(db[i..]) + 2 <= buf.Length
      invariant buf[..offset] == "{" + Members(db[..i])
    {
      BudgetsCut(db, i);
      MembersSnoc(db, i);
      ghost var text := "{" + Members(db[..i]);
      ok, offset := PrintMember(buf, offset, db[i], text);
      if !ok {
        return false, 0;
      }
      assert text + Member(db[i]) == "{" + (Members(db[..i]) + Member(db[i]));
    }
    assert db[..|db|] == db;
    ok := true;
  }

  lemma NoMembers(db: seq<Field>)
    ensures Members([]) == "" && Printable(db[..0]) && db[..0] == [] && db[0..] == db && "{" + "" == "{"
  {
  }

  /** kv_serialize, for records whose buffer length fits a 32-bit number. */
  method Serialize(db: seq<Field>) returns (code: Code, buf: array<char>, outLen: nat)
    requires (forall i :: 0 <= i < |db| ==> Typed(db[i])) && Budgets(db) + 3 < WORD_SPACE
    ensures code == Done <==> Printable(db)
    ensures code == Done ==>
              && outLen < buf.Length && buf[..outLen] == ObjectText(db) && buf[outLen] == NUL
              && buf.Length == Budgets(db) + 3
  {
    hide Budgets, KeyText, Member, Members, ObjectText, Typed, ValueText;
    var len := Measure(db);
    buf := new char[len];
    var ok, offset := PrintAll(db, buf);
    if !ok {
      return ComError, buf, 0;
    }
    ghost var text := buf[..offset];
    ObjectEnds(db);
    if |db| != 0 {
      buf[offset - 1] := ' ';
    }
    buf[offset] := '}';
    buf[offset + 1] := NUL;
    code, outLen := Done, offset + 1;
    assert buf[..outLen] == (if db == [] then text else text[..offset - 1] + " ") + "}";
  }

  lemma MembersSnoc(db: seq<Field>, i: nat)
    requires i < |db| && Printable(db[..i]) && Typed(db[i])
    ensures Printable(db[..i + 1]) <==> db[i].kind != Unknown
    ensures db[i].kind == Unknown ==> !Printable(db)
    ensures db[i].kind != Unknown ==> Members(db[..i + 1]) == Members(db[..i]) + Member(db[i])
  {
    hide Member, Typed;
    assert db[..i + 1][..i] == db[..i];
    assert db[..i + 1] == db[..i] + [db[i]];
  }

  lemma CommaToBlank(s: string)
    ensures (s + ",")[..|s + ","| - 1] + " " + "}" == s + " }"
  {
    assert (s + ",")[..|s|] == s;
  }

  lemma Regroup(m: string, k: string, v: string)
    ensures "{" + (m + (k + v + ",")) == ("{" + m + k + v) + ","
  {
  }

  /** The comma behind the last member is the character that is overwritten. */
  lemma ObjectEnds(db: seq<Field>)
    requires Printable(db)
    ensures
      var s := "{" + Members(db);
      && (db == [] ==> s + "}" == ObjectText(db))
      && (db != [] ==> s[..|s| - 1] + " " + "}" == ObjectText(db))
  {
    hide KeyText, Typed, ValueText;
    if db != [] {
      var n := |db| - 1;
      Regroup(Members(db[..n]), KeyText(db[n]), ValueText(db[n]));
      CommaToBlank("{" + Members(db[..n]) + KeyText(db[n]) + ValueText(db[n]));
    }
  }

  /// ---- Restoring --------------------------------------------------------------------------

  function Fold(c: char): char {
    if 'A' <= c <= 'Z' then ((c as int) + 32) as char else c
  }

  predicate SameKey(a: string, b: string) {
    |a| == |b| && forall i :: 0 <= i < |a| ==> Fold(a[i]) == Fold(b[i])
  }

  /** The first member with the key, upper and lower case alike. */
  function Lookup(items: seq<Item>, key: string): Option<Json> {
    if items == [] then None
    else if SameKey(items[0].0, key) then Some(items[0].1)
    else Lookup(items[1..], key)
  }

  datatype Restored = Good(f: Field) | Bad(code: Code)

  /** The parser's integer of a number. */
  function ValueInt(v: int): int {
    if v > 0x7fff_ffff then 0x7fff_ffff else if v < -0x8000_0000 then -0x8000_0000 else v
  }

  function Zero(f: Field): Field {
    f.(value :=
         match f.kind
         case Bool => Flag(false)
         case Str => Text("")
         case Raw => Blob(Zeros(f.len))
         case _ => Num(0))
  }

  function Zeros(n: nat): (r: seq<Byte>)
    ensures |r| == n
  {
    seq(n, _ => 0)
  }

  /** The memory behind a raw field. */
  function RawBytes(f: Field): (r: seq<Byte>)
    ensures |r| == f.len
  {
    if f.value.Blob? && |f.value.data| == f.len then f.value.data else Zeros(f.len)
  }

  /** What decoding a text into a raw field leaves there: nothing new if it is not
      base64, otherwise the decoded bytes in front of what was there. */
  function Decoded(f: Field, text: string): seq<Byte>
    requires HasRoom(f, text)
  {
    match Base64.Decode(text)
    case None => RawBytes(f)
    case Some(data) => data + RawBytes(f)[|data|..]
  }

  /** The code decodes without asking for the room: it is up to the caller. */
  predicate HasRoom(f: Field, text: string) {
    Base64.Decode(text).Some? ==> |Base64.Decode(text).value| <= f.len
  }

  predicate Fitting(f: Field, j: Option<Json>) {
    f.kind == Raw && j.Some? && j.value.JString? ==> HasRoom(f, j.value.s)
  }

  /** What reading one member does to a field. */
  function Restore(f: Field, j: Option<Json>): (r: Restored)
    requires Fitting(f, j)
    ensures r.Bad? ==> r.code == GetError || r.code == ComError
  {
    match j
    case None => Good(Zero(f))
    case Some(json) =>
      if f.kind.Number() then
        if !json.JNumber? then Bad(GetError)
        else if !InRange(f.kind, ValueInt(json.v)) then Bad(ComError)
        else Good(f.(value := Num(ValueInt(json.v))))
      else if f.kind == Bool then
        if !json.JTrue? && !json.JFalse? then Bad(GetError) else Good(f.(value := Flag(json.JTrue?)))
      else if f.kind == Str then
        if json.JNull? then Good(f.(value := Text("")))
        else if !json.JString? then Bad(GetError)
        else if f.len < |json.s| + 1 then Bad(ComError)
        else Good(f.(value := Text(json.s)))
      else if f.kind == Raw then
        if json.JNull? then Good(f.(len := 0, value := Blob([])))
        else if !json.JString? then Bad(GetError)
        else Good(f.(value := Blob(Decoded(f, json.s))))
      else Bad(ComError)
  }

  /// ---- What the checks accept -----------------------------------------------------------

  /** The first member whose key matches is the one that counts. */
  lemma {:induction false} LookupFirst(items: seq<Item>, key: string)
    ensures Lookup(items, key).None? <==> forall i :: 0 <= i < |items| ==> !SameKey(items[i].0, key)
    ensures Lookup(items, key).Some? ==>
              exists i :: 0 <= i < |items| && SameKey(items[i].0, key) && Lookup(items, key) == Some(items[i].1)
                          && forall j :: 0 <= j < i ==> !SameKey(items[j].0, key)
    decreases |items|
  {
    hide SameKey;
    if items != [] && !SameKey(items[0].0, key) {
      LookupFirst(items[1..], key);
      if Lookup(items, key).Some? {
        var i :| 0 <= i < |items[1..]| && SameKey(items[1..][i].0, key)
                 && Lookup(items[1..], key) == Some(items[1..][i].1)
                 && forall j :: 0 <= j < i ==> !SameKey(items[1..][j].0, key);
        assert items[1..][i] == items[i + 1];
        forall j | 0 <= j < i + 1
          ensures !SameKey(items[j].0, key)
        {
          assert j > 0 ==> items[j] == items[1..][j - 1];
        }
      }
    }
  }

  /** Keys match if they differ in nothing but the case of letters. */
  lemma FoldCase(a: char, b: char)
    ensures Fold(a) == Fold(b) <==>
            || a == b
            || ('A' <= a <= 'Z' && b as int == a as int + 32)
            || ('A' <= b <= 'Z' && a as int == b as int + 32)
  {
  }

  /** The range of a number by type, and what is stored of one that does not even
      fit 32 bits. */
  function Lowest(kind: Kind): int
    requires kind.Number()
  {
    match kind case Char => -128 case Byte => 0 case Short => -32768 case UShort => 0 case Int => -2147483648
  }

  function Highest(kind: Kind): int
    requires kind.Number()
  {
    match kind case Char => 127 case Byte => 255 case Short => 32767 case UShort => 65535 case Int => 2147483647
  }

  /** Numbers: in range they are stored, an int is cut off at its limits, and anything
      else is an error. */
  lemma RestoreNumber(f: Field, j: Json)
    requires f.kind.Number()
    ensures !j.JNumber? ==> Restore(f, Some(j)) == Bad(GetError)
    ensures j.JNumber? && Lowest(f.kind) <= j.v <= Highest(f.kind) ==> Restore(f, Some(j)) == Good(f.(value := Num(j.v)))
    ensures j.JNumber? && j.v < Lowest(f.kind) ==>
              Restore(f, Some(j)) == if f.kind == Int then Good(f.(value := Num(-2147483648))) else Bad(ComError)
    ensures j.JNumber? && j.v > Highest(f.kind) ==>
              Restore(f, Some(j)) == if f.kind == Int then Good(f.(value := Num(2147483647))) else Bad(ComError)
  {
  }

  /** Booleans, strings and raw data: the JSON type decides, then the room. */
  lemma RestoreOther(f: Field, j: Json)
    requires Fitting(f, Some(j)) && !f.kind.Number()
    ensures f.kind == Bool ==>
              Restore(f, Some(j)) ==
              if j.JTrue? then Good(f.(value := Flag(true)))
              else if j.JFalse? then Good(f.(value := Flag(false)))
              else Bad(GetError)
    ensures f.kind in {Str, Raw} && !j.JString? && !j.JNull? ==> Restore(f, Some(j)) == Bad(GetError)
    ensures f.kind == Str && j.JString? ==>
              Restore(f, Some(j)) == if |j.s| < f.len then Good(f.(value := Text(j.s))) else Bad(ComError)
    ensures f.kind == Str && j.JNull? ==> Restore(f, Some(j)) == Good(f.(value := Text("")))
    ensures f.kind == Raw && j.JNull? ==> Restore(f, Some(j)) == Good(f.(value := Blob([]), len := 0))
    ensures f.kind == Unknown ==> Restore(f, Some(j)) == Bad(ComError)
  {
    hide Base64.Decode;
  }

  /** Raw data: the decoded bytes go in front, what is behind them stays. */
  lemma RestoreRaw(f: Field, text: string, k: nat)
    requires Typed(f) && f.kind == Raw && HasRoom(f, text) && k < f.len
    ensures
      var r, data := Restore(f, Some(JString(text))), Base64.Decode(text);
      && r.Good? && r.f.len == f.len && r.f.value.Blob? && |r.f.value.data| == f.len
      && r.f.value.data[k] == if data.Some? && k < |data.value| then data.value[k] else f.value.data[k]
  {
    hide Base64.Decode;
  }

  /** A field that the text does not mention is zeroed, whatever its type. */
  lemma RestoreAbsent(f: Field)
    ensures
      var r := Restore(f, None);
      && r.Good? && r.f.key == f.key && r.f.kind == f.kind && r.f.len == f.len
      && (f.kind.Number() ==> r.f.value == Num(0))
      && (f.kind == Bool ==> r.f.value == Flag(false))
      && (f.kind == Str ==> r.f.value == Text(""))
      && (f.kind == Raw ==> r.f.value.Blob? && |r.f.value.data| == f.len
                            && forall k :: 0 <= k < f.len ==> r.f.value.data[k] == 0)
  {
  }

  /** Whatever is restored is a value of the field's type. */
  lemma RestoredTyped(f: Field, j: Option<Json>)
    requires Fitting(f, j) && Restore(f, j).Good? && f.kind != Unknown
    ensures
      var g := Restore(f, j).f;
      && g.kind == f.kind && g.key == f.key
      && (g.kind.Number() ==> g.value.Num? && Lowest(g.kind) <= g.value.v <= Highest(g.kind))
      && (g.kind == Bool ==> g.value.Flag?)
      && (g.kind == Str ==> g.value.Text? && (g.value.s == "" || |g.value.s| < g.len))
      && (g.kind == Raw ==> g.value.Blob? && |g.value.data| == g.len)
  {
    hide Base64.Decode;
  }

  predicate AllFitting(items: seq<Item>, db: seq<Field>) {
    forall i :: 0 <= i < |db| ==> Fitting(db[i], Lookup(items, db[i].key))
  }

  /** kv_deserialize: fields are set one after the other until one cannot be. */
  method Deserialize(text: string, db: array<Field>) returns (code: Code)
    requires ReadObject(text).Some? ==> AllFitting(ReadObject(text).value, db[..])
    modifies db
    ensures code == ParseError <==> ReadObject(text) == None
    ensures code == ParseError ==> db[..] == old(db[..])
    ensures ReadObject(text).Some? ==> RestoredUpTo(ReadObject(text).value, old(db[..]), db[..], code)
  {
    hide Lookup, ReadObject, Restore, StoppedAt;
    var parsed := ReadObject(text);
    if parsed == None {
      return ParseError;
    }
    var items := parsed.value;
    for i := 0 to db.Length
      invariant forall k :: i <= k < db.Length ==> db[k] == old(db[k])
      invariant forall k :: 0 <= k < i ==> Restore(old(db[k]), Lookup(items, old(db[k]).key)) == Good(db[k])
    {
      match Restore(db[i], Lookup(items, db[i].key)) {
        case Good(f) => db[i] := f;
        case Bad(c) =>
          StopsAt(items, old(db[..]), db[..], i, c);
          return c;
      }
    }
    StopsAt(items, old(db[..]), db[..], db.Length, Done);
    code := Done;
  }

  /** Fields before the first bad one are restored, the others are as they were. */
  ghost predicate RestoredUpTo(items: seq<Item>, was: seq<Field>, now: seq<Field>, code: Code) {
    |now| == |was| && AllFitting(items, was) &&
    exists n :: 0 <= n <= |was| && StoppedAt(items, was, now, n, code)
  }

  ghost predicate StoppedAt(items: seq<Item>, was: seq<Field>, now: seq<Field>, n: nat, code: Code)
    requires |now| == |was| && n <= |was| && AllFitting(items, was)
  {
    && (forall k :: 0 <= k < n ==> Restore(was[k], Lookup(items, was[k].key)) == Good(now[k]))
    && (forall k :: n <= k < |was| ==> now[k] == was[k])
    && if n == |was| then code == Done else Restore(was[n], Lookup(items, was[n].key)) == Bad(code)
  }

  /// ---- The round trip -----------------------------------------------------------------------

  predicate DistinctKeys(db: seq<Field>) {
    forall i, j :: 0 <= i < j < |db| ==> !SameKey(db[i].key, db[j].key)
  }

  lemma {:induction false} LookupBack(db: seq<Field>, i: nat)
    requires Printable(db) && DistinctKeys(db) && i < |db|
    ensures Lookup(Items(db), db[i].key) == Some(JsonOf(db[i]))
    decreases |db|
  {
    hide Fold, JsonOf;
    assert Items(db)[1..] == Items(db[1..]);
    if i > 0 {
      assert !SameKey(db[0].key, db[i].key);
      LookupBack(db[1..], i - 1);
    }
  }

  /** A field of the same name, type and capacity. */
  predicate SameShape(f: Field, g: Field) {
    f.key == g.key && f.kind == g.kind && f.len == g.len
  }

  /** Exactly the strings that leave room for their terminator come back. */
  lemma RestoreBack(f: Field, g: Field)
    requires Typed(f) && SameShape(f, g) && f.kind != Unknown
    ensures Fitting(g, Some(JsonOf(f)))
    ensures Restore(g, Some(JsonOf(f))) == Good(f) <==> (f.kind == Str ==> f.value == Text("") || |f.value.s| < f.len)
  {
    hide Base64.Encode, Base64.Decode, Decoded, RawBytes;
    if f.kind == Raw {
      RawBack(f, g);
    }
  }

  /** A raw field is decoded to the bytes that were encoded. */
  lemma RawBack(f: Field, g: Field)
    requires Typed(f) && f.kind == Raw && SameShape(f, g)
    ensures HasRoom(g, Base64.Encode(f.value.data)) && Decoded(g, Base64.Encode(f.value.data)) == f.value.data
    ensures f.len == 0 ==> f.value == Blob([])
  {
    Base64.DecodeEncode(f.value.data);
    hide Base64.Encode, Base64.Decode, RawBytes;
    assert f.value.data + RawBytes(g)[|f.value.data|..] == f.value.data;
  }

  /** Printing a record and reading it into a record of
      the same shape gives back every value. */
  lemma RoundTrip(db: seq<Field>, blank: seq<Field>, i: nat)
    requires CleanAll(db) && DistinctKeys(db) && i < |db| == |blank| && SameShape(db[i], blank[i])
    requires db[i].kind == Str ==> db[i].value == Text("") || |db[i].value.s| < db[i].len
    ensures
      && ReadObject(ObjectText(db)).Some?
      && Fitting(blank[i], Lookup(ReadObject(ObjectText(db)).value, blank[i].key))
      && Restore(blank[i], Lookup(ReadObject(ObjectText(db)).value, blank[i].key)) == Good(db[i])
  {
    hide CleanField, Fitting, JsonOf, Lookup, ObjectText, ReadObject, Restore, SameKey;
    ReadObjectBack(db);
    LookupBack(db, i);
    RestoreBack(db[i], blank[i]);
  }

  /** The two functions one after the other. */
  method SaveAndLoad(db: seq<Field>, blank: array<Field>) returns (saved: Code, loaded: Code)
    requires CleanAll(db) && DistinctKeys(db) && |db| == blank.Length && Budgets(db) + 3 < WORD_SPACE
    requires forall i :: 0 <= i < |db| ==> SameShape(db[i], blank[i])
    requires forall i :: 0 <= i < |db| ==> db[i].kind == Str ==> db[i].value == Text("") || |db[i].value.s| < db[i].len
    modifies blank
    ensures saved == Done && loaded == Done && blank[..] == db
  {
    hide CleanField, Fitting, Lookup, ObjectText, ReadObject, Restore, SameKey, Typed;
    var buf, n;
    saved, buf, n := Serialize(db);
    ReadObjectBack(db);
    ghost var was := blank[..];
    forall i | 0 <= i < |db|
      ensures Fitting(was[i], Lookup(ReadObject(ObjectText(db)).value, was[i].key))
      ensures Restore(was[i], Lookup(ReadObject(ObjectText(db)).value, was[i].key)) == Good(db[i])
    {
      RoundTrip(db, was, i);
    }
    loaded := Deserialize(buf[..n], blank);
  }

  lemma StopsAt(items: seq<Item>, was: seq<Field>, now: seq<Field>, n: nat, code: Code)
    requires |now| == |was| && n <= |was| && AllFitting(items, was)
    requires forall k :: 0 <= k < n ==> Restore(was[k], Lookup(items, was[k].key)) == Good(now[k])
    requires forall k :: n <= k < |was| ==> now[k] == was[k]
    requires if n == |was| then code == Done else Restore(was[n], Lookup(items, was[n].key)) == Bad(code)
    ensures RestoredUpTo(items, was, now, code)
  {
    assert StoppedAt(items, was, now, n, code);
    hide Lookup, Restore;
  }
}
