/** Canonical JSON of an update dispatch config: the struct is marshalled with `omitempty`, read
    back as a map so that keys are emitted in sorted order at every level, and printed with
    two-space indentation. The text is what the dispatch controllers compare and hash. */
module CanonicalJson {
  import opened Options
  import opened Text

  datatype Field = Field(key: string, value: Json)

  datatype Json =
    | Str(s: string)
    | Num(n: int)
    | Arr(items: seq<Json>)
    | Obj(fields: seq<Field>)

  // ---------- printing ----------

  function HexDigit(d: nat): char
    requires d < 16
  {
    if d < 10 then '0' + d as char else 'a' + (d - 10) as char
  }

  function Hex(n: nat, digits: nat): (h: string)
    ensures |h| == digits
  {
    if digits == 0 then [] else Hex(n / 16, digits - 1) + [HexDigit(n % 16)]
  }

  predicate EscapedAsHex(c: char) {
    c < ' ' || c == '<' || c == '>' || c == '&' || c == '\U{2028}' || c == '\U{2029}'
  }

  /** One character inside a JSON string, as Go's encoder writes it. */
  function EscapeChar(c: char): (e: string)
    ensures e != [] && e[0] != '"'
  {
    if c == '"' || c == '\\' then ['\\', c]
    else if c == '\n' then "\\n"
    else if c == '\r' then "\\r"
    else if c == '\t' then "\\t"
    else if c == '\U{0008}' then "\\b"
    else if c == '\U{000C}' then "\\f"
    else if EscapedAsHex(c) then "\\u" + Hex(c as nat, 4)
    else [c]
  }

  /** The text of `s` inside quotes, with `rest` behind it. Every printer below takes what follows,
      so texts nest to the right. */
  function EscapeThen(s: string, rest: string): string {
    if s == [] then rest else EscapeChar(s[0]) + EscapeThen(s[1..], rest)
  }

  function QuoteThen(s: string, rest: string): string {
    ['"'] + EscapeThen(s, ['"'] + rest)
  }

  /** `line` is a newline and the indentation of the enclosing level. */
  function PrintThen(v: Json, line: string, rest: string): string
    decreases v, 1
  {
    match v
    case Str(s) => QuoteThen(s, rest)
    case Num(n) => IntText(n) + rest
    case Arr(items) =>
      if items == [] then ['['] + ([']'] + rest)
      else ['['] + (line + "  " + PrintItemsThen(items, line + "  ", line + ([']'] + rest)))
    case Obj(fields) =>
      if fields == [] then ['{'] + (['}'] + rest)
      else ['{'] + (line + "  " + PrintFieldsThen(fields, line + "  ", line + (['}'] + rest)))
  }

  function PrintItemsThen(items: seq<Json>, line: string, rest: string): string
    requires items != []
    decreases items, 0
  {
    PrintThen(items[0], line,
              if |items| == 1 then rest else [','] + (line + PrintItemsThen(items[1..], line, rest)))
  }

  function PrintFieldsThen(fields: seq<Field>, line: string, rest: string): string
    requires fields != []
    decreases fields, 0
  {
    QuoteThen(fields[0].key, [':'] + ([' '] +
              PrintThen(fields[0].value, line,
                        if |fields| == 1 then rest else [','] + (line + PrintFieldsThen(fields[1..], line, rest)))))
  }

  function Print(v: Json): string {
    PrintThen(v, "\n", "")
  }

  // ---------- the text determines the value ----------

  lemma Cancel(p: string, a: string, b: string)
    requires p + a == p + b
    ensures a == b
  {
    assert a == (p + a)[|p|..];
  }

  lemma HexDigitInjective(a: nat, b: nat)
    requires a < 16 && b < 16 && HexDigit(a) == HexDigit(b)
    ensures a == b
  {
  }

  function Power16(k: nat): nat {
    if k == 0 then 1 else 16 * Power16(k - 1)
  }

  lemma {:induction false} HexInjective(a: nat, b: nat, digits: nat)
    requires a < Power16(digits) && b < Power16(digits) && Hex(a, digits) == Hex(b, digits)
    ensures a == b
  {
    if digits > 0 {
      assert Hex(a, digits)[..digits - 1] == Hex(a / 16, digits - 1) &&
             Hex(b, digits)[..digits - 1] == Hex(b / 16, digits - 1);
      assert Hex(a, digits)[digits - 1] == HexDigit(a % 16) && Hex(b, digits)[digits - 1] == HexDigit(b % 16);
      HexInjective(a / 16, b / 16, digits - 1);
      HexDigitInjective(a % 16, b % 16);
    }
  }

  /** Whether an escape is one, two or six characters shows in its first two characters. */
  lemma EscapeShape(c: char, x: string)
    ensures var e := EscapeChar(c);
            && (|e| == 1 || |e| == 2 || |e| == 6)
            && (|e| == 1 <==> (e + x)[0] != '\\')
            && (|e| > 1 ==> ((e + x)[1] == 'u' <==> |e| == 6))
            && (|e| == 6 ==> e[2..] == Hex(c as nat, 4) && c as nat < Power16(4))
  {
    assert Power16(4) == 16 * (16 * (16 * (16 * 1)));
  }

  lemma EscapeCharSplits(c: char, d: char, x: string, y: string)
    requires EscapeChar(c) + x == EscapeChar(d) + y
    ensures c == d && x == y
  {
    var e, f := EscapeChar(c), EscapeChar(d);
    EscapeShape(c, x);
    EscapeShape(d, y);
    assert |e| == |f|;
    assert e == (e + x)[..|e|] && f == (f + y)[..|f|];
    Cancel(e, x, y);
    if |e| == 6 {
      HexInjective(c as nat, d as nat, 4);
    } else {
      assert e[|e| - 1] == f[|f| - 1];
    }
  }

  lemma {:induction false} EscapeSplits(s: string, t: string, x: string, y: string)
    requires EscapeThen(s, ['"'] + x) == EscapeThen(t, ['"'] + y)
    ensures s == t && x == y
  {
    EscapeHead(s, x);
    EscapeHead(t, y);
    if s == [] {
      Cancel(['"'], x, y);
    } else {
      EscapeCharSplits(s[0], t[0], EscapeThen(s[1..], ['"'] + x), EscapeThen(t[1..], ['"'] + y));
      EscapeSplits(s[1..], t[1..], x, y);
      assert s == [s[0]] + s[1..] && t == [t[0]] + t[1..];
    }
  }

  lemma EscapeHead(s: string, x: string)
    ensures var text := EscapeThen(s, ['"'] + x); text != [] && (text[0] == '"' <==> s == [])
  {
  }

  lemma QuoteSplits(s: string, t: string, x: string, y: string)
    requires QuoteThen(s, x) == QuoteThen(t, y)
    ensures s == t && x == y
  {
    Cancel(['"'], EscapeThen(s, ['"'] + x), EscapeThen(t, ['"'] + y));
    EscapeSplits(s, t, x, y);
  }

  predicate Line(line: string) { line != [] && line[0] == '\n' }

  /** The first character shows the kind of value, the second whether a list or object is empty. */
  lemma PrintHead(v: Json, line: string, rest: string)
    requires Line(line)
    ensures var text := PrintThen(v, line, rest);
            && |text| > 0
            && (text[0] == '"' <==> v.Str?) && (text[0] == '[' <==> v.Arr?) && (text[0] == '{' <==> v.Obj?)
            && (v.Arr? || v.Obj? ==> |text| > 1)
            && (v.Arr? ==> (text[1] == ']' <==> v.items == []))
            && (v.Obj? ==> (text[1] == '}' <==> v.fields == []))
  {
  }

  /** A value printed before anything that is not a digit can be read back: equal texts come from
      equal values and equal rests. */
  lemma {:induction false} PrintSplits(v: Json, w: Json, line: string, r: string, s: string)
    requires Line(line) && NoDigitFirst(r) && NoDigitFirst(s)
    requires PrintThen(v, line, r) == PrintThen(w, line, s)
    ensures v == w && r == s
    decreases v, 1
  {
    PrintHead(v, line, r);
    PrintHead(w, line, s);
    match v
    case Str(a) =>
      QuoteSplits(a, w.s, r, s);
    case Num(n) =>
      IntTextSplits(n, w.n, r, s);
    case Arr(items) =>
      var r', s' := [']'] + r, [']'] + s;
      if items == [] {
        Cancel(['['], r', s');
      } else {
        var inner := line + "  ";
        Cancel(['['], inner + PrintItemsThen(items, inner, line + r'),
                inner + PrintItemsThen(w.items, inner, line + s'));
        Cancel(inner, PrintItemsThen(items, inner, line + r'), PrintItemsThen(w.items, inner, line + s'));
        PrintItemsSplit(items, w.items, inner, line + r', line + s');
        Cancel(line, r', s');
      }
      Cancel([']'], r, s);
    case Obj(fields) =>
      var r', s' := ['}'] + r, ['}'] + s;
      if fields == [] {
        Cancel(['{'], r', s');
      } else {
        var inner := line + "  ";
        Cancel(['{'], inner + PrintFieldsThen(fields, inner, line + r'),
                inner + PrintFieldsThen(w.fields, inner, line + s'));
        Cancel(inner, PrintFieldsThen(fields, inner, line + r'), PrintFieldsThen(w.fields, inner, line + s'));
        PrintFieldsSplit(fields, w.fields, inner, line + r', line + s');
        Cancel(line, r', s');
      }
      Cancel(['}'], r, s);
  }

  lemma {:induction false} PrintItemsSplit(a: seq<Json>, b: seq<Json>, line: string, r: string, s: string)
    requires a != [] && b != [] && Line(line) && Line(r) && Line(s)
    requires PrintItemsThen(a, line, r) == PrintItemsThen(b, line, s)
    ensures a == b && r == s
    decreases a, 0
  {
    var k := if |a| == 1 then r else [','] + (line + PrintItemsThen(a[1..], line, r));
    var l := if |b| == 1 then s else [','] + (line + PrintItemsThen(b[1..], line, s));
    PrintSplits(a[0], b[0], line, k, l);
    assert a == [a[0]] + a[1..] && b == [b[0]] + b[1..];
    assert (k[0] == ',' <==> |a| > 1) && (l[0] == ',' <==> |b| > 1);
    if |a| > 1 {
      Cancel([','], line + PrintItemsThen(a[1..], line, r), line + PrintItemsThen(b[1..], line, s));
      Cancel(line, PrintItemsThen(a[1..], line, r), PrintItemsThen(b[1..], line, s));
      PrintItemsSplit(a[1..], b[1..], line, r, s);
    }
  }

  lemma {:induction false} PrintFieldsSplit(a: seq<Field>, b: seq<Field>, line: string, r: string, s: string)
    requires a != [] && b != [] && Line(line) && Line(r) && Line(s)
    requires PrintFieldsThen(a, line, r) == PrintFieldsThen(b, line, s)
    ensures a == b && r == s
    decreases a, 0
  {
    var k := if |a| == 1 then r else [','] + (line + PrintFieldsThen(a[1..], line, r));
    var l := if |b| == 1 then s else [','] + (line + PrintFieldsThen(b[1..], line, s));
    var x, y := PrintThen(a[0].value, line, k), PrintThen(b[0].value, line, l);
    QuoteSplits(a[0].key, b[0].key, [':'] + ([' '] + x), [':'] + ([' '] + y));
    Cancel([':'], [' '] + x, [' '] + y);
    Cancel([' '], x, y);
    PrintSplits(a[0].value, b[0].value, line, k, l);
    assert a == [a[0]] + a[1..] && b == [b[0]] + b[1..];
    assert (k[0] == ',' <==> |a| > 1) && (l[0] == ',' <==> |b| > 1);
    if |a| > 1 {
      Cancel([','], line + PrintFieldsThen(a[1..], line, r), line + PrintFieldsThen(b[1..], line, s));
      Cancel(line, PrintFieldsThen(a[1..], line, r), PrintFieldsThen(b[1..], line, s));
      PrintFieldsSplit(a[1..], b[1..], line, r, s);
    }
  }

  lemma PrintInjective(v: Json, w: Json)
    ensures Print(v) == Print(w) <==> v == w
  {
    if Print(v) == Print(w) {
      PrintSplits(v, w, "\n", "", "");
    }
  }

  // ---------- marshalling a struct and sorting its keys ----------

  /** A struct field on its way into JSON: `None` is a field that `omitempty` or a nil pointer drops. */
  datatype Member = Member(key: string, value: Option<Json>)

  function Present(ms: seq<Member>): seq<Field> {
    if ms == [] then []
    else if ms[0].value.None? then Present(ms[1..])
    else [Field(ms[0].key, ms[0].value.value)] + Present(ms[1..])
  }

  function Struct(ms: seq<Member>): Json { Obj(Present(ms)) }

  /** One step of what reading an object into a Go map and writing it again does: keys come out sorted.
      Neither structs nor maps repeat a key, so which of two equal keys stays does not arise. */
  function InsertField(f: Field, fields: seq<Field>): seq<Field> {
    if fields == [] then [f]
    else if Less(f.key, fields[0].key) then [f] + fields
    else if f.key == fields[0].key then [f] + fields[1..]
    else [fields[0]] + InsertField(f, fields[1..])
  }

  function SortKeys(v: Json): Json
    decreases v, 1
  {
    match v
    case Str(_) => v
    case Num(_) => v
    case Arr(items) => Arr(SortItems(items))
    case Obj(fields) => Obj(SortFields(fields))
  }

  function SortItems(items: seq<Json>): (r: seq<Json>)
    ensures |r| == |items|
    decreases items, 0
  {
    if items == [] then [] else [SortKeys(items[0])] + SortItems(items[1..])
  }

  function SortFields(fields: seq<Field>): seq<Field>
    decreases fields, 0
  {
    if fields == [] then []
    else InsertField(Field(fields[0].key, SortKeys(fields[0].value)), SortFields(fields[1..]))
  }

  /** `canonicalJSONForUpdateDispatchConfig` on a marshalled config. */
  function CanonicalText(v: Json): string { Print(SortKeys(v)) }

  predicate KeysSorted(fields: seq<Field>) {
    forall i, j :: 0 <= i < j < |fields| ==> Less(fields[i].key, fields[j].key)
  }

  lemma {:induction false} InsertKeepsSorted(f: Field, fields: seq<Field>)
    requires KeysSorted(fields)
    ensures KeysSorted(InsertField(f, fields))
    ensures forall g :: g in InsertField(f, fields) ==> g == f || g in fields
  {
    if fields != [] {
      var tail := InsertField(f, fields[1..]);
      InsertKeepsSorted(f, fields[1..]);
      LessTotal(f.key, fields[0].key);
      if Less(f.key, fields[0].key) {
        forall j | 0 <= j < |fields| ensures Less(f.key, fields[j].key) {
          if j > 0 { LessTransitive(f.key, fields[0].key, fields[j].key); }
        }
      } else if f.key != fields[0].key {
        forall j | 0 <= j < |tail| ensures Less(fields[0].key, tail[j].key) {
          assert tail[j] in tail;
        }
      }
    }
  }

  lemma {:induction false} SortFieldsSorted(fields: seq<Field>)
    ensures KeysSorted(SortFields(fields))
  {
    if fields != [] {
      SortFieldsSorted(fields[1..]);
      InsertKeepsSorted(Field(fields[0].key, SortKeys(fields[0].value)), SortFields(fields[1..]));
    }
  }

  /** The keys of every object in the value are in strictly increasing byte order. */
  ghost predicate AllSorted(v: Json) {
    match v
    case Str(_) => true
    case Num(_) => true
    case Arr(items) => forall x :: x in items ==> AllSorted(x)
    case Obj(fields) => KeysSorted(fields) && forall f :: f in fields ==> AllSorted(f.value)
  }

  /** Every object of the canonical value, at every level, lists its keys in increasing byte order. */
  lemma {:induction false} CanonicalKeysSorted(v: Json)
    ensures AllSorted(SortKeys(v))
    decreases v, 1
  {
    match v
    case Str(_) =>
    case Num(_) =>
    case Arr(items) => ItemsSorted(items);
    case Obj(fields) =>
      SortFieldsSorted(fields);
      FieldsSorted(fields);
  }

  lemma {:induction false} ItemsSorted(items: seq<Json>)
    ensures forall x :: x in SortItems(items) ==> AllSorted(x)
    decreases items, 0
  {
    if items != [] {
      CanonicalKeysSorted(items[0]);
      ItemsSorted(items[1..]);
    }
  }

  lemma {:induction false} FieldsSorted(fields: seq<Field>)
    ensures forall f :: f in SortFields(fields) ==> AllSorted(f.value)
    decreases fields, 0
  {
    if fields != [] {
      CanonicalKeysSorted(fields[0].value);
      FieldsSorted(fields[1..]);
      SortFieldsSorted(fields[1..]);
      InsertKeepsSorted(Field(fields[0].key, SortKeys(fields[0].value)), SortFields(fields[1..]));
    }
  }

  function Lookup(fields: seq<Field>, key: string): Option<Json> {
    if fields == [] then None
    else if fields[0].key == key then Some(fields[0].value)
    else Lookup(fields[1..], key)
  }

  lemma {:induction false} LookupInsert(f: Field, fields: seq<Field>, key: string)
    ensures Lookup(InsertField(f, fields), key) == if key == f.key then Some(f.value) else Lookup(fields, key)
  {
    if fields != [] && !Less(f.key, fields[0].key) && f.key != fields[0].key {
      LookupInsert(f, fields[1..], key);
    }
  }

  function SortOption(v: Option<Json>): Option<Json> {
    if v.Some? then Some(SortKeys(v.value)) else None
  }

  lemma {:induction false} LookupSorted(fields: seq<Field>, key: string)
    ensures Lookup(SortFields(fields), key) == SortOption(Lookup(fields, key))
  {
    if fields != [] {
      LookupSorted(fields[1..], key);
      LookupInsert(Field(fields[0].key, SortKeys(fields[0].value)), SortFields(fields[1..]), key);
    }
  }

  lemma LookupPresent(ms: seq<Member>, key: string)
    requires ms != []
    ensures Lookup(Present(ms), key) ==
            if ms[0].key == key && ms[0].value.Some? then ms[0].value else Lookup(Present(ms[1..]), key)
  {
    if ms[0].value.Some? {
      assert Present(ms)[1..] == Present(ms[1..]);
    }
  }

  predicate DistinctKeys(ms: seq<Member>) {
    forall i, j :: 0 <= i < j < |ms| ==> ms[i].key != ms[j].key
  }

  lemma {:induction false} LookupMember(ms: seq<Member>, i: nat)
    requires DistinctKeys(ms) && i < |ms|
    ensures Lookup(Present(ms), ms[i].key) == ms[i].value
  {
    LookupPresent(ms, ms[i].key);
    if i == 0 {
      if ms[0].value.None? { LookupAbsent(ms[1..], ms[0].key); }
    } else {
      LookupMember(ms[1..], i - 1);
    }
  }

  lemma {:induction false} LookupAbsent(ms: seq<Member>, key: string)
    requires forall i :: 0 <= i < |ms| ==> ms[i].key != key
    ensures Lookup(Present(ms), key) == None
  {
    if ms != [] {
      LookupPresent(ms, key);
      LookupAbsent(ms[1..], key);
    }
  }

  /** Agreement of structs, one field at a time. */
  lemma MembersAgreeCons(a: seq<Member>, b: seq<Member>)
    requires a != [] && |a| == |b|
    ensures MembersAgree(a, b) <==>
            SortOption(a[0].value) == SortOption(b[0].value) && MembersAgree(a[1..], b[1..])
  {
    if MembersAgree(a[1..], b[1..]) && SortOption(a[0].value) == SortOption(b[0].value) {
      forall i | 0 <= i < |a| ensures SortOption(a[i].value) == SortOption(b[i].value) {
        if i > 0 { assert a[i] == a[1..][i - 1] && b[i] == b[1..][i - 1]; }
      }
    }
  }

  lemma MembersAgreeFour(a: seq<Member>, b: seq<Member>)
    requires |a| == |b| == 4
    ensures MembersAgree(a, b) <==>
            && SortOption(a[0].value) == SortOption(b[0].value) && SortOption(a[1].value) == SortOption(b[1].value)
            && SortOption(a[2].value) == SortOption(b[2].value) && SortOption(a[3].value) == SortOption(b[3].value)
  {
  }

  lemma MembersAgreeAppend(a: seq<Member>, b: seq<Member>, a': seq<Member>, b': seq<Member>)
    requires |a| == |b|
    ensures MembersAgree(a + a', b + b') <==> MembersAgree(a, b) && MembersAgree(a', b')
  {
    if MembersAgree(a + a', b + b') {
      forall i | 0 <= i < |a| ensures SortOption(a[i].value) == SortOption(b[i].value) {
        assert a[i] == (a + a')[i] && b[i] == (b + b')[i];
      }
      forall i | 0 <= i < |a'| ensures SortOption(a'[i].value) == SortOption(b'[i].value) {
        assert a'[i] == (a + a')[|a| + i] && b'[i] == (b + b')[|b| + i];
      }
    }
  }

  /** Two structs of one type with the same field names. */
  predicate SameShape(a: seq<Member>, b: seq<Member>) {
    |a| == |b| && DistinctKeys(a) && forall i :: 0 <= i < |a| ==> a[i].key == b[i].key
  }

  predicate MembersAgree(a: seq<Member>, b: seq<Member>) {
    |a| == |b| && forall i :: 0 <= i < |a| ==> SortOption(a[i].value) == SortOption(b[i].value)
  }

  lemma {:induction false} AgreeingMembersSortAlike(a: seq<Member>, b: seq<Member>)
    requires SameShape(a, b) && MembersAgree(a, b)
    ensures SortFields(Present(a)) == SortFields(Present(b))
  {
    if a != [] {
      assert SortOption(a[0].value) == SortOption(b[0].value);
      AgreeingMembersSortAlike(a[1..], b[1..]);
      if a[0].value.Some? {
        assert Present(a)[1..] == Present(a[1..]) && Present(b)[1..] == Present(b[1..]);
      }
    }
  }

  /** Struct values have one canonical form exactly when they agree field by field. */
  lemma StructsEqual(a: seq<Member>, b: seq<Member>)
    requires SameShape(a, b)
    ensures SortKeys(Struct(a)) == SortKeys(Struct(b)) <==> MembersAgree(a, b)
  {
    if SortKeys(Struct(a)) == SortKeys(Struct(b)) {
      forall i | 0 <= i < |a| ensures SortOption(a[i].value) == SortOption(b[i].value) {
        LookupMember(a, i);
        LookupMember(b, i);
        LookupSorted(Present(a), a[i].key);
        LookupSorted(Present(b), b[i].key);
      }
    } else if MembersAgree(a, b) {
      AgreeingMembersSortAlike(a, b);
    }
  }

  /** A struct with one field. */
  lemma SingleFieldStructsEqual(key: string, a: Option<Json>, b: Option<Json>)
    ensures SortKeys(Struct([Member(key, a)])) == SortKeys(Struct([Member(key, b)])) <==> SortOption(a) == SortOption(b)
  {
    var p, q := [Member(key, a)], [Member(key, b)];
    StructsEqual(p, q);
    MembersAgreeCons(p, q);
  }

  lemma StructTextsEqual(a: seq<Member>, b: seq<Member>)
    requires SameShape(a, b)
    ensures CanonicalText(Struct(a)) == CanonicalText(Struct(b)) <==> MembersAgree(a, b)
  {
    PrintInjective(SortKeys(Struct(a)), SortKeys(Struct(b)));
    StructsEqual(a, b);
  }

  // ---------- field encodings under omitempty ----------

  function NumMember(n: int): Option<Json> { if n == 0 then None else Some(Num(n)) }

  function StrMember(s: string): Option<Json> { if s == "" then None else Some(Str(s)) }

  function ListMember(items: seq<Json>): Option<Json> { if items == [] then None else Some(Arr(items)) }

  function PointerMember(s: Option<string>): Option<Json> { if s.None? then None else Some(Str(s.value)) }

  function StrItems(ss: seq<string>): (r: seq<Json>)
    ensures |r| == |ss|
  {
    seq(|ss|, i requires 0 <= i < |ss| => Str(ss[i]))
  }

  lemma StrListsEqual(a: seq<string>, b: seq<string>)
    ensures SortOption(ListMember(StrItems(a))) == SortOption(ListMember(StrItems(b))) <==> a == b
  {
    ItemsEqual(StrItems(a), StrItems(b));
    if |a| == |b| {
      forall i | 0 <= i < |a| ensures SortKeys(StrItems(a)[i]) == SortKeys(StrItems(b)[i]) <==> a[i] == b[i] {
      }
    }
  }

  lemma {:induction false} ItemsEqual(a: seq<Json>, b: seq<Json>)
    ensures SortItems(a) == SortItems(b) <==>
            |a| == |b| && forall i :: 0 <= i < |a| ==> SortKeys(a[i]) == SortKeys(b[i])
  {
    if a != [] && |a| == |b| {
      ItemsEqual(a[1..], b[1..]);
      assert SortItems(a)[1..] == SortItems(a[1..]) && SortItems(b)[1..] == SortItems(b[1..]);
      assert SortItems(a)[0] == SortKeys(a[0]) && SortItems(b)[0] == SortKeys(b[0]);
      assert forall i :: 0 < i < |a| ==> a[i] == a[1..][i - 1] && b[i] == b[1..][i - 1];
      if forall i :: 0 <= i < |a| ==> SortKeys(a[i]) == SortKeys(b[i]) {
        assert forall i :: 0 <= i < |a[1..]| ==> a[1..][i] == a[i + 1] && b[1..][i] == b[i + 1];
      }
    }
  }

  /** A map with string values; `order` is the order in which the encoder meets the keys. */
  function MapFields(m: map<string, string>, order: seq<string>): seq<Field>
    requires forall k :: k in order ==> k in m
  {
    if order == [] then []
    else
      assert order[0] in order;
      [Field(order[0], Str(m[order[0]]))] + MapFields(m, order[1..])
  }

  lemma {:induction false} LookupMap(m: map<string, string>, order: seq<string>, key: string)
    requires forall k :: k in order ==> k in m
    ensures Lookup(MapFields(m, order), key) == if key in order then Some(Str(m[key])) else None
  {
    if order != [] { LookupMap(m, order[1..], key); }
  }

  /** String maps have one canonical form exactly when they are equal, whatever order each is walked in. */
  lemma MapsEqual(m: map<string, string>, mo: seq<string>, n: map<string, string>, no: seq<string>)
    requires Enumerates(mo, m) && Enumerates(no, n)
    ensures SortKeys(Obj(MapFields(m, mo))) == SortKeys(Obj(MapFields(n, no))) <==> m == n
  {
    if SortKeys(Obj(MapFields(m, mo))) == SortKeys(Obj(MapFields(n, no))) {
      forall k ensures (k in m <==> k in n) && (k in m && k in n ==> m[k] == n[k]) {
        LookupMap(m, mo, k);
        LookupMap(n, no, k);
        LookupSorted(MapFields(m, mo), k);
        LookupSorted(MapFields(n, no), k);
      }
      assert m.Keys == n.Keys;
    } else if m == n {
      var a, b := SortFields(MapFields(m, mo)), SortFields(MapFields(m, no));
      SortFieldsSorted(MapFields(m, mo));
      SortFieldsSorted(MapFields(m, no));
      forall k ensures Lookup(a, k) == Lookup(b, k) {
        LookupMap(m, mo, k);
        LookupMap(m, no, k);
        LookupSorted(MapFields(m, mo), k);
        LookupSorted(MapFields(m, no), k);
      }
      SortedFieldsDetermined(a, b);
    }
  }

  /** Fields with sorted keys are determined by what looking up each key gives. */
  lemma {:induction false} SortedFieldsDetermined(a: seq<Field>, b: seq<Field>)
    requires KeysSorted(a) && KeysSorted(b) && forall k :: Lookup(a, k) == Lookup(b, k)
    ensures a == b
  {
    if a != [] { assert Lookup(b, a[0].key) == Lookup(a, a[0].key); }
    if b != [] { assert Lookup(a, b[0].key) == Lookup(b, b[0].key); }
    if a != [] {
      HeadKeyLeast(a, b[0].key);
      HeadKeyLeast(b, a[0].key);
      assert a[0].key == b[0].key by {
        if Less(a[0].key, b[0].key) { LessAsymmetric(a[0].key, b[0].key); }
      }
      forall k ensures Lookup(a[1..], k) == Lookup(b[1..], k) {
        if k == a[0].key {
          HeadKeyGone(a);
          HeadKeyGone(b);
        } else {
          assert Lookup(a, k) == Lookup(b, k);
        }
      }
      SortedFieldsDetermined(a[1..], b[1..]);
      assert a == [a[0]] + a[1..] && b == [b[0]] + b[1..];
    }
  }

  lemma {:induction false} HeadKeyLeast(a: seq<Field>, key: string)
    requires a != [] && KeysSorted(a)
    ensures Lookup(a, key).Some? ==> key == a[0].key || Less(a[0].key, key)
  {
    if |a| == 1 {
      assert Lookup(a[1..], key) == None;
    } else if a[0].key != key {
      HeadKeyLeast(a[1..], key);
      if Less(a[1].key, key) { LessTransitive(a[0].key, a[1].key, key); }
    }
  }

  lemma {:induction false} HeadKeyGone(a: seq<Field>)
    requires a != [] && KeysSorted(a)
    ensures Lookup(a[1..], a[0].key) == None
  {
    if |a| > 1 {
      HeadKeyLeast(a[1..], a[0].key);
      if Lookup(a[1..], a[0].key).Some? {
        LessIrreflexive(a[0].key);
        LessAsymmetric(a[0].key, a[1].key);
      }
    }
  }
}
