/**
 The canonical JSON printer under every signature and digest, `stableStringify` in
 src/evidence/evidencePreservationStore.js, and a parser that shows it is uniquely decodable. A number
 is represented by the text it prints as, so a number is any nonempty text of number characters.
 */
module CanonicalJson {
  import opened Prelude

  datatype Json = Null | Bool(on: bool) | Number(text: string) | Text(text: string) | Array(items: Items)
    | Object(fields: Fields)

  datatype Items = End | Item(head: Json, tail: Items)

  /** The properties of an object in insertion order. */
  datatype Fields = NoFields | Field(key: string, value: Json, rest: Fields)

  predicate NumberChar(c: char) {
    ('0' <= c <= '9') || c == '-' || c == '+' || c == '.' || c == 'e' || c == 'E'
  }

  /** The characters a JSON number can be made of (section 6 of RFC 8259). */
  lemma NumberCharIs(c: char)
    ensures NumberChar(c) <==> c in "0123456789-+.eE"
  {
    var all := "0123456789-+.eE";
    assert all[0] == '0' && all[1] == '1' && all[2] == '2' && all[3] == '3' && all[4] == '4' && all[5] == '5';
    assert all[6] == '6' && all[7] == '7' && all[8] == '8' && all[9] == '9' && all[10] == '-' && all[11] == '+';
    assert all[12] == '.' && all[13] == 'e' && all[14] == 'E';
  }

  predicate AllNumberChars(text: string) {
    forall i :: 0 <= i < |text| ==> NumberChar(text[i])
  }

  function Lookup(fields: Fields, key: string): (value: Option<Json>)
    ensures value.Some? ==> Size(value.value) < FieldsSize(fields)
  {
    match fields
    case NoFields => None
    case Field(k, v, rest) => if k == key then Some(v) else Lookup(rest, key)
  }

  /** Numbers have number texts, and no object has a key twice. */
  predicate Wellformed(v: Json) {
    match v
    case Number(text) => text != "" && AllNumberChars(text)
    case Array(items) => WellformedItems(items)
    case Object(fields) => WellformedFields(fields)
    case _ => true
  }

  predicate WellformedItems(items: Items) {
    items.End? || (Wellformed(items.head) && WellformedItems(items.tail))
  }

  predicate WellformedFields(fields: Fields) {
    fields.NoFields? ||
    (Wellformed(fields.value) && Lookup(fields.rest, fields.key).None? && WellformedFields(fields.rest))
  }

  function Size(v: Json): nat {
    match v
    case Array(items) => 1 + ItemsSize(items)
    case Object(fields) => 1 + FieldsSize(fields)
    case _ => 1
  }

  function ItemsSize(items: Items): nat {
    if items.End? then 0 else 1 + Size(items.head) + ItemsSize(items.tail)
  }

  function FieldsSize(fields: Fields): nat {
    if fields.NoFields? then 0 else 1 + Size(fields.value) + FieldsSize(fields.rest)
  }

  // ----- key order -----

  predicate KeyLess(a: string, b: string) {
    b != "" && (a == "" || a[0] < b[0] || (a[0] == b[0] && KeyLess(a[1..], b[1..])))
  }

  lemma {:induction false} KeyOrderTotal(a: string, b: string)
    ensures a == b || KeyLess(a, b) || KeyLess(b, a)
    ensures !(KeyLess(a, b) && KeyLess(b, a)) && !KeyLess(a, a)
  {
    if a != "" {
      KeyOrderTotal(a[1..], a[1..]);
      if b != "" {
        KeyOrderTotal(a[1..], b[1..]);
        assert a == [a[0]] + a[1..] && b == [b[0]] + b[1..];
      }
    }
  }

  lemma SamePrefix(a: string, b: string, n: nat)
    requires 0 < n <= |a| && n <= |b| && a[..n] == b[..n]
    ensures a[0] == b[0]
  {
    assert a[..n][0] == b[..n][0];
  }

  /** Keys compare by the first character in which they differ, and a key comes before those it begins. */
  lemma {:induction false} KeyLessIs(a: string, b: string)
    ensures KeyLess(a, b) <==>
            exists n: nat :: n <= |a| && n < |b| && a[..n] == b[..n] && (n == |a| || a[n] < b[n])
    decreases |a|
  {
    if a != "" && b != "" && a[0] == b[0] {
      KeyLessIs(a[1..], b[1..]);
      if n: nat :| n <= |a[1..]| && n < |b[1..]| && a[1..][..n] == b[1..][..n]
                   && (n == |a[1..]| || a[1..][n] < b[1..][n])
      {
        assert a[..n + 1] == [a[0]] + a[1..][..n] && b[..n + 1] == [b[0]] + b[1..][..n];
        assert n + 1 <= |a| && n + 1 < |b| && a[..n + 1] == b[..n + 1] && (n + 1 == |a| || a[n + 1] < b[n + 1]);
      }
      if n: nat :| n <= |a| && n < |b| && a[..n] == b[..n] && (n == |a| || a[n] < b[n]) {
        assert n > 0;
        assert a[1..][..n - 1] == a[..n][1..] && b[1..][..n - 1] == b[..n][1..];
        assert n - 1 <= |a[1..]| && n - 1 < |b[1..]| && a[1..][..n - 1] == b[1..][..n - 1];
      }
    } else if KeyLess(a, b) {
      assert a[..0] == b[..0];
    } else {
      forall n: nat | n <= |a| && n < |b| && a[..n] == b[..n] ensures n == 0 {
        if n > 0 {
          SamePrefix(a, b, n);
        }
      }
    }
  }

  lemma {:induction false} KeyOrderTransitive(a: string, b: string, c: string)
    requires KeyLess(a, b) && KeyLess(b, c)
    ensures KeyLess(a, c)
  {
    if a != "" && a[0] == b[0] == c[0] {
      KeyOrderTransitive(a[1..], b[1..], c[1..]);
    }
  }

  function Insert(key: string, value: Json, fields: Fields): (r: Fields)
    ensures FieldsSize(r) == 1 + Size(value) + FieldsSize(fields)
  {
    if fields.NoFields? || KeyLess(key, fields.key) then Field(key, value, fields)
    else Field(fields.key, fields.value, Insert(key, value, fields.rest))
  }

  function SortFields(fields: Fields): (r: Fields)
    ensures FieldsSize(r) == FieldsSize(fields)
  {
    if fields.NoFields? then NoFields else Insert(fields.key, fields.value, SortFields(fields.rest))
  }

  // ----- printing -----

  function HexDigit(n: nat): char
    requires n < 16
  {
    if n < 10 then '0' + n as char else 'a' + (n - 10) as char
  }

  function Escape(c: char): string {
    if c == '\"' then "\\\""
    else if c == '\\' then "\\\\"
    else if c == 8 as char then "\\b"
    else if c == '\t' then "\\t"
    else if c == '\n' then "\\n"
    else if c == 12 as char then "\\f"
    else if c == '\r' then "\\r"
    else if c < ' ' then "\\u00" + [HexDigit(c as int / 16), HexDigit(c as int % 16)]
    else [c]
  }

  /** Only quotes, backslashes and control characters are escaped. */
  lemma PlainStays(c: char)
    ensures Escape(c) == [c] <==> ' ' <= c && c != '\"' && c != '\\'
  {
  }

  function EscapeAll(text: string): string {
    if text == "" then "" else Escape(text[0]) + EscapeAll(text[1..])
  }

  function Quote(text: string): string {
    "\"" + EscapeAll(text) + "\""
  }

  function Print(v: Json): string
    decreases Size(v)
  {
    match v
    case Null => "null"
    case Bool(on) => if on then "true" else "false"
    case Number(text) => text
    case Text(text) => Quote(text)
    case Array(items) => "[" + PrintItems(items) + "]"
    case Object(fields) => "{" + PrintFields(SortFields(fields)) + "}"
  }

  function PrintItems(items: Items): string
    decreases ItemsSize(items)
  {
    if items.End? then ""
    else if items.tail.End? then Print(items.head)
    else Print(items.head) + "," + PrintItems(items.tail)
  }

  function PrintFields(fields: Fields): string
    decreases FieldsSize(fields)
  {
    if fields.NoFields? then
      ""
    else
      Quote(fields.key) + ":" + Print(fields.value) +
      (if fields.rest.NoFields? then "" else "," + PrintFields(fields.rest))
  }

  // ----- the value a text stands for -----

  /** The same value with every object's keys in order. */
  function Canon(v: Json): Json
    decreases Size(v)
  {
    match v
    case Array(items) => Array(CanonItems(items))
    case Object(fields) => Object(CanonFields(SortFields(fields)))
    case _ => v
  }

  function CanonItems(items: Items): Items
    decreases ItemsSize(items)
  {
    if items.End? then End else Item(Canon(items.head), CanonItems(items.tail))
  }

  function CanonFields(fields: Fields): Fields
    decreases FieldsSize(fields)
  {
    if fields.NoFields? then NoFields else Field(fields.key, Canon(fields.value), CanonFields(fields.rest))
  }

  /** Equality of JSON values: objects are equal when they have equal values under the same keys,
      whatever the order. */
  ghost predicate Equal(v: Json, w: Json)
    decreases Size(v)
  {
    match v
    case Array(items) => w.Array? && EqualItems(items, w.items)
    case Object(fields) => w.Object? && forall key :: EqualAt(Lookup(fields, key), fields, Lookup(w.fields, key))
    case _ => v == w
  }

  ghost predicate EqualAt(a: Option<Json>, fields: Fields, b: Option<Json>)
    requires a.Some? ==> Size(a.value) < FieldsSize(fields)
    decreases FieldsSize(fields)
  {
    a.Some? == b.Some? && (a.Some? ==> Equal(a.value, b.value))
  }

  ghost predicate EqualItems(items: Items, others: Items)
    decreases ItemsSize(items)
  {
    items.End? == others.End? &&
    (items.Item? ==> Equal(items.head, others.head) && EqualItems(items.tail, others.tail))
  }

  // ----- parsing -----

  datatype Parsed<T> = Parsed(value: T, rest: string)

  function HexValue(c: char): nat {
    if '0' <= c <= '9' then c as int - '0' as int
    else if 'a' <= c <= 'f' then c as int - 'a' as int + 10
    else 0
  }

  function ReadChar(s: string): (r: Option<Parsed<char>>)
    ensures r.Some? ==> |r.value.rest| < |s|
  {
    if s == "" then None
    else if s[0] != '\\' then Some(Parsed(s[0], s[1..]))
    else if |s| < 2 then None
    else match s[1]
      case '\"' => Some(Parsed('\"', s[2..]))
      case '\\' => Some(Parsed('\\', s[2..]))
      case 'b' => Some(Parsed(8 as char, s[2..]))
      case 't' => Some(Parsed('\t', s[2..]))
      case 'n' => Some(Parsed('\n', s[2..]))
      case 'f' => Some(Parsed(12 as char, s[2..]))
      case 'r' => Some(Parsed('\r', s[2..]))
      case _ => if |s| < 6 then None else Some(Parsed((HexValue(s[4]) * 16 + HexValue(s[5])) as char, s[6..]))
  }

  /** Reads up to and including the closing quote. */
  function ReadText(s: string): (r: Option<Parsed<string>>)
    ensures r.Some? ==> |r.value.rest| < |s|
    decreases |s|
  {
    if s == "" then None
    else if s[0] == '\"' then Some(Parsed("", s[1..]))
    else
      var c := ReadChar(s);
      if c.None? then None
      else
        var more := ReadText(c.value.rest);
        if more.None? then None else Some(Parsed([c.value.value] + more.value.value, more.value.rest))
  }

  function ReadNumber(s: string): (r: Parsed<string>)
    ensures |r.value| + |r.rest| == |s|
  {
    if s == "" || !NumberChar(s[0]) then Parsed("", s)
    else
      var more := ReadNumber(s[1..]);
      Parsed([s[0]] + more.value, more.rest)
  }

  predicate StartsWith(s: string, c: char) {
    s != "" && s[0] == c
  }

  function Parse(s: string): (r: Option<Parsed<Json>>)
    ensures r.Some? ==> |r.value.rest| < |s|
    decreases |s|, 0
  {
    if s == "" then None
    else if s[0] == '[' then
      if StartsWith(s[1..], ']') then Some(Parsed(Array(End), s[2..]))
      else
        var items := ParseItems(s[1..]);
        if items.None? then None else Some(Parsed(Array(items.value.value), items.value.rest))
    else if s[0] == '{' then
      if StartsWith(s[1..], '}') then Some(Parsed(Object(NoFields), s[2..]))
      else
        var fields := ParseFields(s[1..]);
        if fields.None? then None else Some(Parsed(Object(fields.value.value), fields.value.rest))
    else if s[0] == '\"' then
      var text := ReadText(s[1..]);
      if text.None? then None else Some(Parsed(Text(text.value.value), text.value.rest))
    else if "null" <= s then Some(Parsed(Null, s[4..]))
    else if "true" <= s then Some(Parsed(Bool(true), s[4..]))
    else if "false" <= s then Some(Parsed(Bool(false), s[5..]))
    else
      var number := ReadNumber(s);
      if number.value == "" then None else Some(Parsed(Number(number.value), number.rest))
  }

  /** Reads one or more items up to and including the closing bracket. */
  function ParseItems(s: string): (r: Option<Parsed<Items>>)
    ensures r.Some? ==> |r.value.rest| < |s|
    decreases |s|, 1
  {
    var head := Parse(s);
    if head.None? then None
    else if StartsWith(head.value.rest, ']') then Some(Parsed(Item(head.value.value, End), head.value.rest[1..]))
    else if !StartsWith(head.value.rest, ',') then None
    else
      var tail := ParseItems(head.value.rest[1..]);
      if tail.None? then None else Some(Parsed(Item(head.value.value, tail.value.value), tail.value.rest))
  }

  /** Reads one or more properties up to and including the closing brace. */
  function ParseFields(s: string): (r: Option<Parsed<Fields>>)
    ensures r.Some? ==> |r.value.rest| < |s|
    decreases |s|, 1
  {
    if !StartsWith(s, '\"') then None
    else
      var key := ReadText(s[1..]);
      if key.None? || !StartsWith(key.value.rest, ':') then None
      else
        var value := Parse(key.value.rest[1..]);
        if value.None? then None
        else if StartsWith(value.value.rest, '}') then
          Some(Parsed(Field(key.value.value, value.value.value, NoFields), value.value.rest[1..]))
        else if !StartsWith(value.value.rest, ',') then None
        else
          var rest := ParseFields(value.value.rest[1..]);
          if rest.None? then None
          else Some(Parsed(Field(key.value.value, value.value.value, rest.value.value), rest.value.rest))
  }

  // ----- the parser undoes the printer -----

  lemma ReadEscaped(c: char, rest: string)
    ensures ReadChar(Escape(c) + rest) == Some(Parsed(c, rest))
    ensures !StartsWith(Escape(c) + rest, '\"')
  {
    var s := Escape(c) + rest;
    assert s[|Escape(c)|..] == rest;
    if |Escape(c)| == 6 {
      var n := c as int;
      assert s[4] == HexDigit(n / 16) && s[5] == HexDigit(n % 16);
      assert HexValue(s[4]) == n / 16 && HexValue(s[5]) == n % 16;
      assert (n / 16 * 16 + n % 16) as char == c;
    }
  }

  lemma {:induction false} ReadQuoted(text: string, rest: string)
    ensures ReadText(EscapeAll(text) + "\"" + rest) == Some(Parsed(text, rest))
  {
    if text == "" {
      assert EscapeAll(text) + "\"" + rest == "\"" + rest;
    } else {
      ReadEscaped(text[0], EscapeAll(text[1..]) + "\"" + rest);
      ReadQuoted(text[1..], rest);
      assert EscapeAll(text) + "\"" + rest == Escape(text[0]) + (EscapeAll(text[1..]) + "\"" + rest);
      assert [text[0]] + text[1..] == text;
    }
  }

  /** The suffix cannot be mistaken for more of a number. */
  predicate EndsLeaf(suffix: string) {
    suffix == "" || !NumberChar(suffix[0])
  }

  lemma {:induction false} ReadNumberText(text: string, suffix: string)
    requires AllNumberChars(text) && EndsLeaf(suffix)
    ensures ReadNumber(text + suffix) == Parsed(text, suffix)
  {
    if text == "" {
      assert text + suffix == suffix;
    } else {
      assert (text + suffix)[1..] == text[1..] + suffix;
      ReadNumberText(text[1..], suffix);
      assert [text[0]] + text[1..] == text;
    }
  }

  lemma FirstChar(v: Json)
    requires Wellformed(v)
    ensures Print(v) != "" && Print(v)[0] != ']'
  {
  }

  lemma {:induction false} InsertWellformed(key: string, value: Json, fields: Fields)
    requires WellformedFields(fields) && Wellformed(value) && Lookup(fields, key).None?
    ensures WellformedFields(Insert(key, value, fields))
    ensures forall k :: Lookup(Insert(key, value, fields), k) == if k == key then Some(value) else Lookup(fields, k)
  {
    if fields.Field? {
      InsertWellformed(key, value, fields.rest);
    }
  }

  /** Sorting keeps every property. */
  lemma {:induction false} SortKeeps(fields: Fields)
    requires WellformedFields(fields)
    ensures WellformedFields(SortFields(fields))
    ensures forall k :: Lookup(SortFields(fields), k) == Lookup(fields, k)
  {
    if fields.Field? {
      SortKeeps(fields.rest);
      InsertWellformed(fields.key, fields.value, SortFields(fields.rest));
    }
  }

  // The text of a value followed by a suffix, built from the right so that the parser can follow it.

  function PrintOn(v: Json, suffix: string): string
    decreases Size(v)
  {
    match v
    case Array(items) => "[" + (if items.End? then "]" + suffix else PrintItemsOn(items, suffix))
    case Object(fields) => "{" + (if fields.NoFields? then "}" + suffix else PrintFieldsOn(SortFields(fields), suffix))
    case _ => Print(v) + suffix
  }

  function PrintItemsOn(items: Items, suffix: string): string
    decreases ItemsSize(items)
  {
    if items.End? then ""
    else PrintOn(items.head, if items.tail.End? then "]" + suffix else "," + PrintItemsOn(items.tail, suffix))
  }

  function PrintFieldsOn(fields: Fields, suffix: string): string
    decreases FieldsSize(fields)
  {
    if fields.NoFields? then
      ""
    else
      var rest := if fields.rest.NoFields? then "}" + suffix else "," + PrintFieldsOn(fields.rest, suffix);
      Quote(fields.key) + (":" + PrintOn(fields.value, rest))
  }

  lemma Regroup(a: string, b: string, c: string, d: string)
    ensures a + b + c + d == a + (b + (c + d))
  {
  }

  lemma {:induction false} PrintOnIsPrint(v: Json, suffix: string)
    ensures PrintOn(v, suffix) == Print(v) + suffix
    decreases Size(v), 1
  {
    match v
    case Array(items) =>
      Regroup("[", PrintItems(items), "]", suffix);
      if items.Item? {
        PrintItemsOnIsPrint(items, suffix);
      }
    case Object(fields) =>
      Regroup("{", PrintFields(SortFields(fields)), "}", suffix);
      if fields.Field? {
        PrintFieldsOnIsPrint(SortFields(fields), suffix);
      }
    case _ =>
  }

  lemma {:induction false} PrintItemsOnIsPrint(items: Items, suffix: string)
    requires items.Item?
    ensures PrintItemsOn(items, suffix) == PrintItems(items) + ("]" + suffix)
    decreases ItemsSize(items), 0
  {
    if items.tail.End? {
      PrintOnIsPrint(items.head, "]" + suffix);
    } else {
      PrintOnIsPrint(items.head, "," + PrintItemsOn(items.tail, suffix));
      PrintItemsOnIsPrint(items.tail, suffix);
      Regroup(Print(items.head), ",", PrintItems(items.tail), "]" + suffix);
    }
  }

  lemma {:induction false} PrintFieldsOnIsPrint(fields: Fields, suffix: string)
    requires fields.Field?
    ensures PrintFieldsOn(fields, suffix) == PrintFields(fields) + ("}" + suffix)
    decreases FieldsSize(fields), 0
  {
    var key, text := Quote(fields.key), Print(fields.value);
    if fields.rest.NoFields? {
      PrintOnIsPrint(fields.value, "}" + suffix);
      Regroup(key, ":", text, "}" + suffix);
    } else {
      PrintOnIsPrint(fields.value, "," + PrintFieldsOn(fields.rest, suffix));
      PrintFieldsOnIsPrint(fields.rest, suffix);
      var more := PrintFields(fields.rest);
      Regroup(key + ":" + text, ",", more, "}" + suffix);
      Regroup(key, ":", text, "," + (more + ("}" + suffix)));
      FieldText(fields);
    }
  }

  lemma FieldText(fields: Fields)
    requires fields.Field? && fields.rest.Field?
    ensures PrintFields(fields) == Quote(fields.key) + ":" + Print(fields.value) + "," + PrintFields(fields.rest)
  {
    Regroup(Quote(fields.key) + ":", Print(fields.value), ",", PrintFields(fields.rest));
  }

  lemma ParseLeaf(v: Json, suffix: string)
    requires Wellformed(v) && EndsLeaf(suffix) && !v.Array? && !v.Object?
    ensures Parse(Print(v) + suffix) == Some(Parsed(v, suffix))
  {
    var s := Print(v) + suffix;
    assert s[|Print(v)|..] == suffix;
    match v
    case Null => assert s[..4] == "null";
    case Bool(on) => assert s[..|Print(v)|] == Print(v);
    case Number(text) =>
      ReadNumberText(text, suffix);
      assert s[0] == text[0] && NumberChar(s[0]);
    case Text(text) =>
      ParseText(text, suffix);
  }

  lemma ParseText(text: string, suffix: string)
    ensures ReadText((Quote(text) + suffix)[1..]) == Some(Parsed(text, suffix))
    ensures Quote(text) + suffix != "" && (Quote(text) + suffix)[0] == '\"'
  {
    ReadQuoted(text, suffix);
    Regroup("\"", EscapeAll(text), "\"", suffix);
    After('\"', EscapeAll(text) + ("\"" + suffix));
    assert EscapeAll(text) + ("\"" + suffix) == EscapeAll(text) + "\"" + suffix;
  }

  lemma FirstCharOn(v: Json, suffix: string)
    requires Wellformed(v)
    ensures !StartsWith(PrintOn(v, suffix), ']')
  {
    if !v.Array? && !v.Object? {
      FirstChar(v);
    }
  }

  lemma After(c: char, rest: string)
    ensures ([c] + rest)[1..] == rest && StartsWith([c] + rest, c)
  {
  }

  lemma {:induction false} ParseOn(v: Json, suffix: string)
    requires Wellformed(v) && EndsLeaf(suffix)
    ensures Parse(PrintOn(v, suffix)) == Some(Parsed(Canon(v), suffix))
    decreases Size(v), 1
  {
    match v
    case Array(items) =>
      if items.End? {
        After('[', "]" + suffix);
        After(']', suffix);
        assert PrintOn(v, suffix)[2..] == suffix;
      } else {
        ParseItemsOn(items, suffix);
        FirstCharOn(items.head, if items.tail.End? then "]" + suffix else "," + PrintItemsOn(items.tail, suffix));
        After('[', PrintItemsOn(items, suffix));
      }
    case Object(fields) =>
      SortKeeps(fields);
      if fields.NoFields? {
        After('{', "}" + suffix);
        After('}', suffix);
        assert PrintOn(v, suffix)[2..] == suffix;
      } else {
        ParseFieldsOn(SortFields(fields), suffix);
        After('{', PrintFieldsOn(SortFields(fields), suffix));
      }
    case _ => ParseLeaf(v, suffix);
  }

  lemma {:induction false} ParseItemsOn(items: Items, suffix: string)
    requires items.Item? && WellformedItems(items)
    ensures ParseItems(PrintItemsOn(items, suffix)) == Some(Parsed(CanonItems(items), suffix))
    decreases ItemsSize(items), 0
  {
    if items.tail.End? {
      After(']', suffix);
      ParseOn(items.head, "]" + suffix);
      assert CanonItems(items) == Item(Canon(items.head), End);
    } else {
      After(',', PrintItemsOn(items.tail, suffix));
      ParseOn(items.head, "," + PrintItemsOn(items.tail, suffix));
      ParseItemsOn(items.tail, suffix);
    }
  }

  lemma {:induction false} ParseFieldsOn(fields: Fields, suffix: string)
    requires fields.Field? && WellformedFields(fields)
    ensures ParseFields(PrintFieldsOn(fields, suffix)) == Some(Parsed(CanonFields(fields), suffix))
    ensures !StartsWith(PrintFieldsOn(fields, suffix), '}')
    decreases FieldsSize(fields), 0
  {
    var tail := if fields.rest.NoFields? then "}" + suffix else "," + PrintFieldsOn(fields.rest, suffix);
    var value := PrintOn(fields.value, tail);
    ParseText(fields.key, ":" + value);
    After(':', value);
    ParseOn(fields.value, tail);
    if fields.rest.NoFields? {
      After('}', suffix);
      assert CanonFields(fields) == Field(fields.key, Canon(fields.value), NoFields);
    } else {
      After(',', PrintFieldsOn(fields.rest, suffix));
      ParseFieldsOn(fields.rest, suffix);
    }
  }

  /** The printer is uniquely decodable: whatever follows, as long as it cannot extend a number, the
      parser finds the value again, its keys in order, and stops where it ended. */
  lemma ParsePrint(v: Json, suffix: string)
    requires Wellformed(v) && EndsLeaf(suffix)
    ensures Parse(Print(v) + suffix) == Some(Parsed(Canon(v), suffix))
  {
    PrintOnIsPrint(v, suffix);
    ParseOn(v, suffix);
  }
  // ----- equal texts are equal values -----

  ghost predicate Sorted(fields: Fields) {
    fields.Field? && fields.rest.Field? ==> KeyLess(fields.key, fields.rest.key) && Sorted(fields.rest)
  }

  lemma {:induction false} InsertSorted(key: string, value: Json, fields: Fields)
    requires Sorted(fields) && Lookup(fields, key).None?
    ensures Sorted(Insert(key, value, fields))
    ensures Insert(key, value, fields).key == key || (fields.Field? && Insert(key, value, fields).key == fields.key)
  {
    if fields.Field? && !KeyLess(key, fields.key) {
      KeyOrderTotal(key, fields.key);
      InsertSorted(key, value, fields.rest);
    }
  }

  lemma {:induction false} SortSorts(fields: Fields)
    requires WellformedFields(fields)
    ensures Sorted(SortFields(fields))
  {
    if fields.Field? {
      SortSorts(fields.rest);
      SortKeeps(fields.rest);
      InsertSorted(fields.key, fields.value, SortFields(fields.rest));
    }
  }

  lemma {:induction false} FirstKeyLeast(fields: Fields, key: string)
    requires Sorted(fields) && Lookup(fields, key).Some?
    ensures key == fields.key || KeyLess(fields.key, key)
  {
    if key != fields.key {
      FirstKeyLeast(fields.rest, key);
      if key != fields.rest.key {
        KeyOrderTransitive(fields.key, fields.rest.key, key);
      }
    }
  }

  ghost predicate Agree(fields: Fields, others: Fields) {
    forall key :: EqualAt(Lookup(fields, key), fields, Lookup(others, key))
  }

  /** Equal keys in the same order, with equal values. */
  ghost predicate Pairwise(fields: Fields, others: Fields) {
    fields.Field? == others.Field? &&
    (fields.Field? ==>
     fields.key == others.key && Equal(fields.value, others.value) && Pairwise(fields.rest, others.rest))
  }

  lemma SameFirstKey(fields: Fields, others: Fields)
    requires Sorted(fields) && Sorted(others) && fields.Field? && others.Field? && Agree(fields, others)
    ensures fields.key == others.key
  {
    assert EqualAt(Lookup(fields, fields.key), fields, Lookup(others, fields.key));
    assert EqualAt(Lookup(fields, others.key), fields, Lookup(others, others.key));
    FirstKeyLeast(fields, others.key);
    FirstKeyLeast(others, fields.key);
    KeyOrderTotal(fields.key, others.key);
  }

  lemma {:induction false} SortedPairs(fields: Fields, others: Fields)
    requires WellformedFields(fields) && WellformedFields(others)
    requires Sorted(fields) && Sorted(others) && Agree(fields, others)
    ensures Pairwise(fields, others)
  {
    if others.Field? {
      assert EqualAt(Lookup(fields, others.key), fields, Lookup(others, others.key));
    }
    if fields.Field? {
      assert EqualAt(Lookup(fields, fields.key), fields, Lookup(others, fields.key));
      SameFirstKey(fields, others);
      forall key ensures EqualAt(Lookup(fields.rest, key), fields.rest, Lookup(others.rest, key)) {
        assert EqualAt(Lookup(fields, key), fields, Lookup(others, key));
      }
      SortedPairs(fields.rest, others.rest);
    }
  }

  lemma {:induction false} EqualPrintsSame(v: Json, w: Json)
    requires Wellformed(v) && Wellformed(w) && Equal(v, w)
    ensures Print(v) == Print(w)
    decreases Size(v), 1
  {
    match v
    case Array(items) => EqualItemsPrintSame(items, w.items);
    case Object(fields) =>
      var f, g := SortFields(fields), SortFields(w.fields);
      SortKeeps(fields);
      SortKeeps(w.fields);
      SortSorts(fields);
      SortSorts(w.fields);
      forall key ensures EqualAt(Lookup(f, key), f, Lookup(g, key)) {
        assert EqualAt(Lookup(fields, key), fields, Lookup(w.fields, key));
      }
      SortedPairs(f, g);
      PairwisePrintsSame(f, g);
    case _ =>
  }

  lemma {:induction false} EqualItemsPrintSame(items: Items, others: Items)
    requires WellformedItems(items) && WellformedItems(others) && EqualItems(items, others)
    ensures PrintItems(items) == PrintItems(others)
    decreases ItemsSize(items), 0
  {
    if items.Item? {
      EqualPrintsSame(items.head, others.head);
      EqualItemsPrintSame(items.tail, others.tail);
    }
  }

  lemma {:induction false} PairwisePrintsSame(fields: Fields, others: Fields)
    requires WellformedFields(fields) && WellformedFields(others) && Pairwise(fields, others)
    ensures PrintFields(fields) == PrintFields(others)
    decreases FieldsSize(fields), 0
  {
    if fields.Field? {
      EqualPrintsSame(fields.value, others.value);
      PairwisePrintsSame(fields.rest, others.rest);
    }
  }

  lemma {:induction false} CanonLookup(fields: Fields, key: string)
    ensures var value := Lookup(fields, key);
            Lookup(CanonFields(fields), key) == if value.Some? then Some(Canon(value.value)) else None
  {
    if fields.Field? {
      CanonLookup(fields.rest, key);
    }
  }

  lemma {:induction false} SameCanonEqual(v: Json, w: Json)
    requires Wellformed(v) && Wellformed(w) && Canon(v) == Canon(w)
    ensures Equal(v, w)
    decreases Size(v), 1
  {
    match v
    case Array(items) => SameCanonItemsEqual(items, w.items);
    case Object(fields) =>
      SortKeeps(fields);
      SortKeeps(w.fields);
      forall key ensures EqualAt(Lookup(fields, key), fields, Lookup(w.fields, key)) {
        CanonLookup(SortFields(fields), key);
        CanonLookup(SortFields(w.fields), key);
        var a, b := Lookup(fields, key), Lookup(w.fields, key);
        if a.Some? {
          LookupWellformed(fields, key);
          LookupWellformed(w.fields, key);
          SameCanonEqual(a.value, b.value);
        }
      }
    case _ =>
  }

  lemma {:induction false} LookupWellformed(fields: Fields, key: string)
    requires WellformedFields(fields)
    ensures Lookup(fields, key).Some? ==> Wellformed(Lookup(fields, key).value)
  {
    if fields.Field? {
      LookupWellformed(fields.rest, key);
    }
  }

  lemma {:induction false} SameCanonItemsEqual(items: Items, others: Items)
    requires WellformedItems(items) && WellformedItems(others) && CanonItems(items) == CanonItems(others)
    ensures EqualItems(items, others)
    decreases ItemsSize(items), 0
  {
    if items.Item? {
      SameCanonEqual(items.head, others.head);
      SameCanonItemsEqual(items.tail, others.tail);
    }
  }

  /** Two values print to the same text, and so get the same digest, exactly when they are equal JSON
      values; the order in which properties were inserted never shows. */
  lemma SameTextIffEqual(v: Json, w: Json)
    requires Wellformed(v) && Wellformed(w)
    ensures Print(v) == Print(w) <==> Equal(v, w)
  {
    if Print(v) == Print(w) {
      ParsePrint(v, "");
      ParsePrint(w, "");
      SameCanonEqual(v, w);
    }
    if Equal(v, w) {
      EqualPrintsSame(v, w);
    }
  }

  /** No text is a proper prefix of another value's text, unless both are numbers. */
  lemma TextsArePrefixFree(v: Json, w: Json, suffix: string)
    requires Wellformed(v) && Wellformed(w) && EndsLeaf(suffix) && Print(v) + suffix == Print(w)
    ensures suffix == "" && Equal(v, w)
  {
    ParsePrint(v, suffix);
    ParsePrint(w, "");
    assert Print(w) + "" == Print(w);
    SameCanonEqual(v, w);
  }
}
