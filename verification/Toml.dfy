/**
 The part of TOML v1.0.0 that the firmware manifest is written in, read on its own terms; and the
 JSON string literals (RFC 8259, section 7) that the manifest generator writes as TOML strings.

 The reader is written from the TOML specification: basic strings with their escapes, truth
 values, arrays that may go over several lines, inline tables, and tables under an
 array-of-tables header, in which no key may be repeated. It refuses what is outside of that.
 The printer is that of the generator. That the one reads what the other prints is proved from
 characters up to documents; where it does not, the exact limit is part of the statement.
 */
module Toml {
  import opened Wrappers
  import opened Text

  datatype Value = Str(s: string) | Bool(b: bool) | Arr(items: seq<Value>) | Tbl(entries: seq<(string, Value)>)

  type Table = seq<(string, Value)>

  // ----- basic strings -----

  predicate IsHex(c: char) {
    '0' <= c <= '9' || 'a' <= c <= 'f' || 'A' <= c <= 'F'
  }

  function HexValue(c: char): (n: nat)
    requires IsHex(c)
    ensures n < 16
  {
    if '0' <= c <= '9' then c as int - '0' as int
    else if 'a' <= c <= 'f' then c as int - 'a' as int + 10
    else c as int - 'A' as int + 10
  }

  /** The number a run of hexadecimal digits spells; None when some character is no such digit. */
  function ParseHex(s: string): Option<nat> {
    if s == "" then Some(0)
    else if !IsHex(s[|s| - 1]) then None
    else
      match ParseHex(s[..|s| - 1])
      case None => None
      case Some(n) => Some(16 * n + HexValue(s[|s| - 1]))
  }

  /** Unicode scalar values: code points that are no surrogates. */
  predicate IsScalar(n: nat) {
    n < 0xD800 || 0xE000 <= n < 0x11_0000
  }

  predicate IsForbidden(c: char) {
    (c < ' ' && c != '\t') || c == '\U{7f}'
  }

  function Unescaped(c: char): Option<char> {
    if c == 'b' then Some('\U{8}')
    else if c == 't' then Some('\t')
    else if c == 'n' then Some('\n')
    else if c == 'f' then Some('\U{c}')
    else if c == 'r' then Some('\r')
    else if c == '\"' || c == '\\' then Some(c)
    else None
  }

  /** One character of a basic string's body, and the text behind it. */
  function ParseChar(t: string): (r: Option<(char, string)>)
    ensures r.Some? ==> |r.value.1| < |t|
  {
    if t == "" || IsForbidden(t[0]) then None
    else if t[0] != '\\' then Some((t[0], t[1..]))
    else if |t| < 2 then None
    else if t[1] == 'u' || t[1] == 'U' then
      var n := if t[1] == 'u' then 4 else 8;
      if |t| < 2 + n then None
      else
        match ParseHex(t[2..2 + n])
        case None => None
        case Some(code) => if IsScalar(code) then Some((code as char, t[2 + n..])) else None
    else
      match Unescaped(t[1])
      case None => None
      case Some(c) => Some((c, t[2..]))
  }

  /** The rest of a basic string behind its opening quote, up to and with the closing one. */
  function ParseBody(t: string): (r: Option<(string, string)>)
    ensures r.Some? ==> |r.value.1| < |t|
    decreases |t|
  {
    if t == "" then None
    else if t[0] == '\"' then Some(("", t[1..]))
    else
      match ParseChar(t)
      case None => None
      case Some(c) =>
        match ParseBody(c.1)
        case None => None
        case Some(body) => Some(([c.0] + body.0, body.1))
  }

  // ----- values -----

  predicate IsBare(c: char) {
    'a' <= c <= 'z' || 'A' <= c <= 'Z' || '0' <= c <= '9' || c == '_' || c == '-'
  }

  /** Spaces and tabs. */
  function SkipSpaces(t: string): (r: string)
    ensures |r| <= |t|
  {
    if t != "" && (t[0] == ' ' || t[0] == '\t') then SkipSpaces(t[1..]) else t
  }

  /** Spaces, tabs and line ends. */
  function SkipBlank(t: string): (r: string)
    ensures |r| <= |t|
  {
    if t != "" && (t[0] == ' ' || t[0] == '\t' || t[0] == '\n') then SkipBlank(t[1..]) else t
  }

  /** The bare key in front of `t`; empty when there is none. */
  function BareKey(t: string): (k: string)
    ensures |k| <= |t| && t[..|k|] == k
  {
    if t != "" && IsBare(t[0]) then [t[0]] + BareKey(t[1..]) else ""
  }

  /** `t` behind one expected character. */
  function Expect(t: string, c: char): (r: Option<string>)
    ensures r.Some? ==> |r.value| < |t|
  {
    if t != "" && t[0] == c then Some(t[1..]) else None
  }

  function ParseValue(t: string): (r: Option<(Value, string)>)
    ensures r.Some? ==> |r.value.1| < |t|
    decreases |t|, 0
  {
    if StartsWith(t, "\"\"\"") || t == "" then None
    else if t[0] == '\"' then
      match ParseBody(t[1..])
      case None => None
      case Some(s) => Some((Str(s.0), s.1))
    else if StartsWith(t, "true") then Some((Bool(true), t[4..]))
    else if StartsWith(t, "false") then Some((Bool(false), t[5..]))
    else if t[0] == '[' then
      match ParseItems(t[1..])
      case None => None
      case Some(items) => Some((Arr(items.0), items.1))
    else if t[0] == '{' then
      var u := SkipSpaces(t[1..]);
      match if u != "" && u[0] == '}' then Some(([], u[1..])) else ParsePairs(u, {})
      case None => None
      case Some(pairs) => Some((Tbl(pairs.0), pairs.1))
    else None
  }

  /** The values of an array behind its bracket, or behind a comma, up to and with the closing one. */
  function ParseItems(t: string): (r: Option<(seq<Value>, string)>)
    ensures r.Some? ==> |r.value.1| < |t|
    decreases |t|, 1
  {
    var u := SkipBlank(t);
    if u != "" && u[0] == ']' then Some(([], u[1..]))
    else
      match ParseValue(u)
      case None => None
      case Some(v) =>
        var w := SkipBlank(v.1);
        if w != "" && w[0] == ']' then Some(([v.0], w[1..]))
        else if w != "" && w[0] == ',' then
          match ParseItems(w[1..])
          case None => None
          case Some(rest) => Some(([v.0] + rest.0, rest.1))
        else None
  }

  /** A key, an equals sign and a value. A key seen before is an error. */
  function ParsePair(t: string, seen: set<string>): (r: Option<((string, Value), string)>)
    ensures r.Some? ==> |r.value.1| < |t|
    decreases |t|, 1
  {
    var key := BareKey(t);
    if key == "" || key in seen then None
    else
      match Expect(SkipSpaces(t[|key|..]), '=')
      case None => None
      case Some(u) =>
        match ParseValue(SkipSpaces(u))
        case None => None
        case Some(v) => Some(((key, v.0), v.1))
  }

  /** The pairs of an inline table up to and with the closing brace. */
  function ParsePairs(t: string, seen: set<string>): (r: Option<(Table, string)>)
    ensures r.Some? ==> |r.value.1| < |t|
    decreases |t|, 2
  {
    match ParsePair(t, seen)
    case None => None
    case Some(p) =>
      var u := SkipSpaces(p.1);
      if u != "" && u[0] == '}' then Some(([p.0], u[1..]))
      else if u != "" && u[0] == ',' then
        match ParsePairs(SkipSpaces(u[1..]), seen + {p.0.0})
        case None => None
        case Some(rest) => Some(([p.0] + rest.0, rest.1))
      else None
  }

  // ----- documents: a list of tables under one array-of-tables header -----

  const HEADER := "[[variant]]"

  /** The text behind the end of a line that must have nothing else on it. */
  function EndLine(t: string): (r: Option<string>)
    ensures r.Some? ==> |r.value| <= |t|
  {
    var u := SkipSpaces(t);
    if u == "" then Some("") else if u[0] == '\n' then Some(u[1..]) else None
  }

  /** The pairs below a header, up to the next header or the end. */
  function ParseEntries(t: string, seen: set<string>): (r: Option<(Table, string)>)
    ensures r.Some? ==> |r.value.1| <= |t|
    decreases |t|
  {
    var u := SkipBlank(t);
    if u == "" || u[0] == '[' then Some(([], u))
    else
      match ParsePair(u, seen)
      case None => None
      case Some(p) =>
        match EndLine(p.1)
        case None => None
        case Some(w) =>
          match ParseEntries(w, seen + {p.0.0})
          case None => None
          case Some(rest) => Some(([p.0] + rest.0, rest.1))
  }

  function ParseDocument(t: string): Option<seq<Table>>
    decreases |t|
  {
    var u := SkipBlank(t);
    if u == "" then Some([])
    else if !StartsWith(u, HEADER) then None
    else
      match EndLine(u[|HEADER|..])
      case None => None
      case Some(w) =>
        match ParseEntries(w, {})
        case None => None
        case Some(entries) =>
          match ParseDocument(entries.1)
          case None => None
          case Some(rest) => Some([entries.0] + rest)
  }

  // ----- JSON string literals, as `json.dumps` writes them -----

  function HexDigit(n: nat): (c: char)
    requires n < 16
    ensures IsHex(c) && HexValue(c) == n
  {
    if n < 10 then (n + '0' as int) as char else (n - 10 + 'a' as int) as char
  }

  function Hex4(n: nat): (s: string)
    requires n < 0x1_0000
    ensures |s| == 4
  {
    [HexDigit(n / 0x1000), HexDigit(n / 0x100 % 16), HexDigit(n / 16 % 16), HexDigit(n % 16)]
  }

  function JsonChar(c: char): string {
    if c == '\"' then "\\\""
    else if c == '\\' then "\\\\"
    else if c == '\n' then "\\n"
    else if c == '\r' then "\\r"
    else if c == '\t' then "\\t"
    else if c == '\U{c}' then "\\f"
    else if c == '\U{8}' then "\\b"
    else if ' ' <= c <= '~' then [c]
    else if c as int < 0x1_0000 then "\\u" + Hex4(c as int)
    else
      var n := c as int - 0x1_0000;
      "\\u" + Hex4(0xD800 + n / 0x400) + ("\\u" + Hex4(0xDC00 + n % 0x400))
  }

  function JsonBody(s: string): string {
    if s == "" then "" else JsonChar(s[0]) + JsonBody(s[1..])
  }

  /** `_toml_string`: a JSON literal, offered as a TOML string. */
  function TomlString(s: string): string {
    "\"" + JsonBody(s) + "\""
  }

  /** The characters one `\u` escape can carry. */
  predicate InPlane0(s: string) {
    forall i :: 0 <= i < |s| ==> s[i] as int < 0x1_0000
  }

  lemma ParseHexFour(a: char, b: char, c: char, d: char)
    requires IsHex(a) && IsHex(b) && IsHex(c) && IsHex(d)
    ensures ParseHex([a, b, c, d]) == Some(0x1000 * HexValue(a) + 0x100 * HexValue(b) + 16 * HexValue(c) + HexValue(d))
  {
    assert [a][..0] == "" && ParseHex([a]) == Some(HexValue(a));
    assert [a, b][..1] == [a] && ParseHex([a, b]) == Some(16 * HexValue(a) + HexValue(b));
    assert [a, b, c][..2] == [a, b] && ParseHex([a, b, c]) == Some(0x100 * HexValue(a) + 16 * HexValue(b) + HexValue(c));
    assert [a, b, c, d][..3] == [a, b, c];
  }

  lemma ParseHex4(n: nat)
    requires n < 0x1_0000
    ensures ParseHex(Hex4(n)) == Some(n)
  {
    ParseHexFour(HexDigit(n / 0x1000), HexDigit(n / 0x100 % 16), HexDigit(n / 16 % 16), HexDigit(n % 16));
    hide ParseHex;
    HexDigitsSum(n);
  }

  lemma HexDigitsSum(n: nat)
    ensures n == 0x1000 * (n / 0x1000) + 0x100 * (n / 0x100 % 16) + 16 * (n / 16 % 16) + n % 16
  {
    assert n == 16 * (n / 16) + n % 16;
    assert n / 16 == 16 * (n / 0x100) + n / 16 % 16;
    assert n / 0x100 == 16 * (n / 0x1000) + n / 0x100 % 16;
  }

  /** An escape with four digits reads as the character with that code, when there is one. */
  lemma UnicodeEscape(n: nat, rest: string)
    requires n < 0x1_0000
    ensures ParseChar("\\u" + Hex4(n) + rest) == if IsScalar(n) then Some((n as char, rest)) else None
  {
    var t := "\\u" + Hex4(n) + rest;
    assert t[2..6] == Hex4(n) && t[6..] == rest;
    ParseHex4(n);
  }

  lemma PlainCharReadsBack(c: char, rest: string)
    requires ' ' <= c <= '~' && c != '\"' && c != '\\'
    ensures ParseChar([c] + rest) == Some((c, rest)) && ([c] + rest)[0] != '\"'
  {
    assert ([c] + rest)[1..] == rest;
  }

  lemma ShortEscapeReadsBack(e: char, rest: string)
    requires Unescaped(e).Some?
    ensures ParseChar(['\\', e] + rest) == Some((Unescaped(e).value, rest)) && (['\\', e] + rest)[0] != '\"'
  {
    assert (['\\', e] + rest)[2..] == rest;
  }

  lemma PairIsRefused(c: char, rest: string)
    requires c as int >= 0x1_0000
    ensures ParseChar(JsonChar(c) + rest).None? && (JsonChar(c) + rest)[0] != '\"'
  {
    hide ParseChar;
    var n := c as int - 0x1_0000;
    var high, low := "\\u" + Hex4(0xD800 + n / 0x400), "\\u" + Hex4(0xDC00 + n % 0x400);
    UnicodeEscape(0xD800 + n / 0x400, low + rest);
    Associative(high, low, rest);
  }

  lemma CharReadsBack(c: char, rest: string)
    ensures var t := JsonChar(c) + rest;
            t[0] != '\"' && ParseChar(t) == if c as int < 0x1_0000 then Some((c, rest)) else None
  {
    hide ParseChar, Hex4;
    if c as int >= 0x1_0000 {
      PairIsRefused(c, rest);
    } else if |JsonChar(c)| == 1 {
      PlainCharReadsBack(c, rest);
    } else if |JsonChar(c)| == 2 {
      ShortEscapeReadsBack(JsonChar(c)[1], rest);
      assert JsonChar(c) == ['\\', JsonChar(c)[1]];
    } else {
      UnicodeEscape(c as int, rest);
    }
  }

  /**
   A TOML reader undoes the JSON escaping exactly for the strings within plane 0, all ASCII strings
   among them. Beyond, JSON writes a pair of surrogates, which no TOML escape may name.
   */
  lemma {:induction false} BodyReadsBack(s: string, rest: string)
    ensures ParseBody(JsonBody(s) + "\"" + rest) == if InPlane0(s) then Some((s, rest)) else None
  {
    hide ParseChar, JsonChar;
    if s == "" {
      assert JsonBody(s) + "\"" + rest == "\"" + rest;
      assert ("\"" + rest)[1..] == rest;
    } else {
      var later := JsonBody(s[1..]) + "\"" + rest;
      BodyReadsBack(s[1..], rest);
      CharReadsBack(s[0], later);
      assert JsonBody(s) + "\"" + rest == JsonChar(s[0]) + later;
      assert s == [s[0]] + s[1..];
      assert InPlane0(s) <==> s[0] as int < 0x1_0000 && InPlane0(s[1..]);
    }
  }

  // ----- printed values, as the manifest generator lays them out -----

  /** A string or a truth value; what arrays and inline tables of the manifest hold. */
  predicate IsScalarValue(v: Value) {
    v.Bool? || (v.Str? && InPlane0(v.s))
  }

  function EmitScalar(v: Value): string {
    match v
    case Str(s) => TomlString(s)
    case Bool(b) => if b then "true" else "false"
    case _ => ""
  }

  predicate IsBareKey(k: string) {
    k != "" && forall i :: 0 <= i < |k| ==> IsBare(k[i])
  }

  predicate DistinctKeys(entries: Table) {
    forall i, j :: 0 <= i < j < |entries| ==> entries[i].0 != entries[j].0
  }

  /** What the values of a manifest table are: scalars, lists of scalars, tables of scalars. */
  predicate IsPrintable(v: Value) {
    match v
    case Arr(items) => forall i :: 0 <= i < |items| ==> IsScalarValue(items[i])
    case Tbl(entries) => AreScalarPairs(entries)
    case _ => IsScalarValue(v)
  }

  predicate AreScalarPairs(entries: Table) {
    DistinctKeys(entries) && forall i :: 0 <= i < |entries| ==> IsBareKey(entries[i].0) && IsScalarValue(entries[i].1)
  }

  predicate IsPrintableTable(entries: Table) {
    DistinctKeys(entries) && forall i :: 0 <= i < |entries| ==> IsBareKey(entries[i].0) && IsPrintable(entries[i].1)
  }

  /** The lines of an array, an element and a comma on each, and its closing bracket. */
  function EmitItems(items: seq<Value>): string {
    if items == [] then "]" else "    " + (EmitScalar(items[0]) + (",\n" + EmitItems(items[1..])))
  }

  /** The pairs of an inline table and its closing brace. */
  function EmitPairs(entries: Table): string
    requires entries != []
  {
    entries[0].0 + (" = " + (EmitScalar(entries[0].1) + if |entries| == 1 then " }" else ", " + EmitPairs(entries[1..])))
  }

  function EmitValue(v: Value): string
    requires IsPrintable(v)
  {
    match v
    case Arr(items) => if items == [] then "[]" else "[\n" + EmitItems(items)
    case Tbl(entries) => if entries == [] then "{  }" else "{ " + EmitPairs(entries)
    case _ => EmitScalar(v)
  }

  function EmitLine(entry: (string, Value)): string
    requires IsPrintable(entry.1)
  {
    entry.0 + (" = " + EmitValue(entry.1))
  }

  // ----- reading printed values -----

  predicate NoQuote(t: string) {
    t == "" || t[0] != '\"'
  }

  lemma StringReadsBack(s: string, rest: string)
    requires NoQuote(rest)
    ensures ParseValue(TomlString(s) + rest) == if InPlane0(s) then Some((Str(s), rest)) else None
  {
    QuotedText(s, rest);
    NoTripleQuote(s, rest);
    BodyReadsBack(s, rest);
    hide TomlString, JsonBody, ParseBody, StartsWith;
    QuotedParses(TomlString(s) + rest);
  }

  lemma QuotedText(s: string, rest: string)
    ensures var t := TomlString(s) + rest;
            t != "" && t[0] == '\"' && t[1..] == JsonBody(s) + "\"" + rest
  {
    Associative("\"", JsonBody(s), "\"");
    Associative("\"", JsonBody(s) + "\"", rest);
  }

  lemma QuotedParses(t: string)
    requires t != "" && t[0] == '\"' && !StartsWith(t, "\"\"\"")
    ensures ParseValue(t) == match ParseBody(t[1..]) { case None => None case Some(s) => Some((Str(s.0), s.1)) }
  {
  }

  lemma NoTripleQuote(s: string, rest: string)
    requires NoQuote(rest)
    ensures !StartsWith(TomlString(s) + rest, "\"\"\"")
  {
    var t := TomlString(s) + rest;
    if s == "" {
      assert t == "\"\"" + rest;
      assert |t| >= 3 ==> t[0..3][2] == rest[0];
    } else {
      assert t[1] == JsonChar(s[0])[0] != '\"';
      assert |t| >= 3 ==> t[0..3][1] == t[1];
    }
  }

  lemma ScalarReadsBack(v: Value, rest: string)
    requires IsScalarValue(v) && NoQuote(rest)
    ensures ParseValue(EmitScalar(v) + rest) == Some((v, rest))
  {
    match v
    case Str(s) => StringReadsBack(s, rest);
    case Bool(b) => BoolReadsBack(b, rest);
  }

  lemma BoolReadsBack(b: bool, rest: string)
    ensures ParseValue((if b then "true" else "false") + rest) == Some((Bool(b), rest))
  {
    var t := (if b then "true" else "false") + rest;
    if b {
      assert t[0..4] == "true" && t[4..] == rest;
    } else {
      assert t[0..5] == "false" && t[5..] == rest;
      assert !StartsWith(t, "true") by { assert t[0] == 'f'; assert t[0..4][0] == 'f'; }
    }
    assert |t| >= 3 ==> t[0..3][0] == t[0];
  }

  predicate Solid(t: string) {
    t != "" && t[0] !in " \t\n"
  }

  lemma SkipsOne(c: char, t: string)
    ensures c == ' ' ==> SkipSpaces([c] + t) == SkipSpaces(t)
    ensures c == ' ' || c == '\n' ==> SkipBlank([c] + t) == SkipBlank(t)
  {
    assert ([c] + t)[1..] == t;
  }

  lemma ScalarSolid(v: Value, rest: string)
    requires v.Bool? || v.Str?
    ensures Solid(EmitScalar(v) + rest) && (EmitScalar(v) + rest)[0] != ']'
  {
  }

  lemma {:induction false} BareKeyReadsBack(k: string, rest: string)
    requires forall i :: 0 <= i < |k| ==> IsBare(k[i])
    requires rest == "" || !IsBare(rest[0])
    ensures BareKey(k + rest) == k
  {
    if k == "" {
      assert k + rest == rest;
    } else {
      assert (k + rest)[1..] == k[1..] + rest;
      BareKeyReadsBack(k[1..], rest);
    }
  }

  lemma EqualsReads(vt: string)
    requires Solid(vt)
    ensures var u := Expect(SkipSpaces(" = " + vt), '=');
            u.Some? && SkipSpaces(u.value) == vt
  {
    assert " = " + vt == [' '] + ("= " + vt);
    SkipsOne(' ', "= " + vt);
    assert ("= " + vt)[1..] == [' '] + vt;
    SkipsOne(' ', vt);
  }

  /** A key and a printed value read back, whatever the value is. */
  lemma PairParses(k: string, vt: string, v: Value, rest: string, seen: set<string>)
    requires IsBareKey(k) && k !in seen && Solid(vt) && ParseValue(vt) == Some((v, rest))
    ensures ParsePair(k + (" = " + vt), seen) == Some(((k, v), rest))
  {
    hide ParseValue, SkipSpaces, BareKey;
    var t := k + (" = " + vt);
    assert (" = " + vt)[0] == ' ';
    BareKeyReadsBack(k, " = " + vt);
    assert t[|k|..] == " = " + vt;
    EqualsReads(vt);
  }

  lemma SolidStays(t: string)
    requires Solid(t)
    ensures SkipBlank(t) == t && SkipSpaces(t) == t
  {
  }

  lemma IndentText(t: string)
    ensures "    " + t == [' '] + ([' '] + ([' '] + ([' '] + t)))
  {
  }

  lemma IndentSkipped(t: string)
    requires Solid(t)
    ensures SkipBlank("\n" + ("    " + t)) == t
  {
    hide SkipBlank;
    IndentText(t);
    SolidStays(t);
    SkipsOne('\n', "    " + t);
    SkipsOne(' ', [' '] + ([' '] + ([' '] + t)));
    SkipsOne(' ', [' '] + ([' '] + t));
    SkipsOne(' ', [' '] + t);
    SkipsOne(' ', t);
  }

  lemma ItemsEnd(rest: string)
    ensures ParseItems("\n" + ("]" + rest)) == Some(([], rest))
  {
    SkipsOne('\n', "]" + rest);
    assert ("]" + rest)[1..] == rest;
  }

  lemma ItemsNext(t: string, v: Value, later: string)
    requires Solid(t) && t[0] != ']' && ParseValue(t) == Some((v, "," + later))
    ensures ParseItems("\n" + ("    " + t))
         == match ParseItems(later) { case None => None case Some(r) => Some(([v] + r.0, r.1)) }
  {
    hide ParseValue;
    IndentSkipped(t);
    assert ("," + later)[1..] == later;
  }

  lemma {:induction false} ItemsReadBack(items: seq<Value>, rest: string)
    requires forall i :: 0 <= i < |items| ==> IsScalarValue(items[i])
    ensures ParseItems("\n" + (EmitItems(items) + rest)) == Some((items, rest))
  {
    hide ParseItems, ParseValue, EmitScalar;
    if items == [] {
      ItemsEnd(rest);
    } else {
      ItemsReadBack(items[1..], rest);
      var later := "\n" + (EmitItems(items[1..]) + rest);
      var t := EmitScalar(items[0]) + ("," + later);
      ScalarReadsBack(items[0], "," + later);
      ScalarSolid(items[0], "," + later);
      ItemsNext(t, items[0], later);
      ItemsText(items, rest);
      assert items == [items[0]] + items[1..];
    }
  }

  lemma ItemsText(items: seq<Value>, rest: string)
    requires items != []
    ensures EmitItems(items) + rest
         == "    " + (EmitScalar(items[0]) + ("," + ("\n" + (EmitItems(items[1..]) + rest))))
  {
    hide EmitScalar;
    var e := EmitItems(items[1..]);
    assert ",\n" + e == "," + ("\n" + e);
    Associative("    ", EmitScalar(items[0]) + (",\n" + e), rest);
    Associative(EmitScalar(items[0]), ",\n" + e, rest);
    Associative(",", "\n" + e, rest);
    Associative("\n", e, rest);
  }

  function ConsPair(pair: (string, Value), rest: Option<(Table, string)>): Option<(Table, string)> {
    match rest
    case None => None
    case Some(r) => Some(([pair] + r.0, r.1))
  }

  lemma PairsNext(t: string, pair: (string, Value), behind: string, seen: set<string>)
    requires ParsePair(t, seen) == Some((pair, "," + behind))
    ensures ParsePairs(t, seen) == ConsPair(pair, ParsePairs(SkipSpaces(behind), seen + {pair.0}))
  {
    hide ParsePair;
    assert ("," + behind)[1..] == behind;
  }

  lemma PairsEnd(t: string, pair: (string, Value), rest: string, seen: set<string>)
    requires ParsePair(t, seen) == Some((pair, " }" + rest))
    ensures ParsePairs(t, seen) == Some(([pair], rest))
  {
    hide ParsePair;
    assert " }" + rest == [' '] + ("}" + rest);
    SkipsOne(' ', "}" + rest);
    assert ("}" + rest)[1..] == rest;
  }

  lemma PairsText(entries: Table, rest: string)
    requires entries != []
    ensures EmitPairs(entries) + rest
         == entries[0].0 + (" = " + (EmitScalar(entries[0].1) + PairTail(entries, rest)))
  {
    hide EmitScalar;
    var key, v := entries[0].0, EmitScalar(entries[0].1);
    var tail := if |entries| == 1 then " }" else ", " + EmitPairs(entries[1..]);
    Associative(key, " = " + (v + tail), rest);
    Associative(" = ", v + tail, rest);
    Associative(v, tail, rest);
    TailText(entries, rest);
  }

  /** What follows the first pair of an inline table. */
  function PairTail(entries: Table, rest: string): string
    requires entries != []
  {
    if |entries| == 1 then " }" + rest else "," + ([' '] + (EmitPairs(entries[1..]) + rest))
  }

  lemma TailText(entries: Table, rest: string)
    requires entries != []
    ensures (if |entries| == 1 then " }" else ", " + EmitPairs(entries[1..])) + rest == PairTail(entries, rest)
  {
    hide EmitPairs;
    if |entries| > 1 {
      assert ", " == "," + [' '];
      Associative(", ", EmitPairs(entries[1..]), rest);
      Associative(",", [' '], EmitPairs(entries[1..]) + rest);
    }
  }

  predicate Fresh(entries: Table, seen: set<string>) {
    forall i :: 0 <= i < |entries| ==> entries[i].0 !in seen
  }

  lemma FreshNext(entries: Table, seen: set<string>)
    requires entries != [] && DistinctKeys(entries) && Fresh(entries, seen)
    ensures DistinctKeys(entries[1..]) && Fresh(entries[1..], seen + {entries[0].0})
    ensures entries == [entries[0]] + entries[1..]
  {
  }

  lemma KeySolid(entries: Table, rest: string)
    requires entries != [] && AreScalarPairs(entries)
    ensures SkipSpaces([' '] + (EmitPairs(entries) + rest)) == EmitPairs(entries) + rest
    ensures SkipSpaces(EmitPairs(entries) + rest) == EmitPairs(entries) + rest && (EmitPairs(entries) + rest)[0] != '}'
  {
    hide EmitPairs;
    PairsText(entries, rest);
    assert IsBare(entries[0].0[0]) && (EmitPairs(entries) + rest)[0] == entries[0].0[0];
    SkipsOne(' ', EmitPairs(entries) + rest);
  }

  lemma {:induction false} PairsReadBack(entries: Table, rest: string, seen: set<string>)
    requires entries != [] && AreScalarPairs(entries) && Fresh(entries, seen)
    ensures ParsePairs(EmitPairs(entries) + rest, seen) == Some((entries, rest))
    decreases |entries|
  {
    hide ParsePairs, ParsePair, ParseValue, EmitScalar, EmitPairs, SkipSpaces;
    FreshNext(entries, seen);
    PairsText(entries, rest);
    var (k, v) := entries[0];
    var t, behind := EmitPairs(entries) + rest, PairTail(entries, rest);
    ScalarReadsBack(v, behind);
    ScalarSolid(v, behind);
    PairParses(k, EmitScalar(v) + behind, v, behind, seen);
    if |entries| == 1 {
      PairsEnd(t, (k, v), rest, seen);
      assert entries == [(k, v)];
    } else {
      var next := EmitPairs(entries[1..]) + rest;
      PairsNext(t, (k, v), [' '] + next, seen);
      KeySolid(entries[1..], rest);
      PairsReadBack(entries[1..], rest, seen + {k});
    }
  }

  lemma BracketText(c: char, t: string)
    requires c == '[' || c == '{'
    ensures var u := [c] + t;
            u[0] == c && u[1..] == t && !StartsWith(u, "\"\"\"") && !StartsWith(u, "true") && !StartsWith(u, "false")
  {
    var u := [c] + t;
    assert |u| >= 3 ==> u[0..3][0] == c;
    assert |u| >= 4 ==> u[0..4][0] == c;
    assert |u| >= 5 ==> u[0..5][0] == c;
  }

  lemma ArrayText(items: seq<Value>, rest: string)
    requires IsPrintable(Arr(items))
    ensures EmitValue(Arr(items)) + rest == ['['] + if items == [] then "]" + rest else "\n" + (EmitItems(items) + rest)
  {
    hide EmitItems;
    var e := EmitItems(items);
    if items != [] {
      assert "[\n" + e == ['['] + ("\n" + e);
      Associative(['['], "\n" + e, rest);
      Associative("\n", e, rest);
    }
  }

  lemma ArrayParses(t: string, items: seq<Value>, rest: string)
    requires ParseItems(t) == Some((items, rest))
    ensures ParseValue(['['] + t) == Some((Arr(items), rest))
  {
    hide ParseItems, StartsWith;
    BracketText('[', t);
  }

  lemma ArrayReadsBack(items: seq<Value>, rest: string)
    requires IsPrintable(Arr(items))
    ensures ParseValue(EmitValue(Arr(items)) + rest) == Some((Arr(items), rest))
  {
    ArrayText(items, rest);
    if items == [] {
      assert ("]" + rest)[1..] == rest;
      ArrayParses("]" + rest, items, rest);
    } else {
      ItemsReadBack(items, rest);
      ArrayParses("\n" + (EmitItems(items) + rest), items, rest);
    }
  }

  lemma InlineReadsBack(entries: Table, rest: string)
    requires IsPrintable(Tbl(entries))
    ensures ParseValue(EmitValue(Tbl(entries)) + rest) == Some((Tbl(entries), rest))
  {
    hide ParsePairs, EmitPairs, StartsWith;
    if entries == [] {
      var inner := [' '] + ([' '] + ("}" + rest));
      BracketText('{', inner);
      SkipsOne(' ', [' '] + ("}" + rest));
      SkipsOne(' ', "}" + rest);
      assert ("}" + rest)[1..] == rest;
      assert EmitValue(Tbl(entries)) + rest == ['{'] + inner;
    } else {
      var inner := [' '] + (EmitPairs(entries) + rest);
      BracketText('{', inner);
      PairsReadBack(entries, rest, {});
      KeySolid(entries, rest);
      assert EmitValue(Tbl(entries)) + rest == ['{'] + inner;
    }
  }

  /** Every printed value reads back, whatever follows it. */
  lemma ValueReadsBack(v: Value, rest: string)
    requires IsPrintable(v) && NoQuote(rest)
    ensures ParseValue(EmitValue(v) + rest) == Some((v, rest))
    ensures Solid(EmitValue(v) + rest)
  {
    hide ParseValue;
    match v
    case Arr(items) => ArrayReadsBack(items, rest);
    case Tbl(entries) => InlineReadsBack(entries, rest);
    case _ =>
      ScalarReadsBack(v, rest);
      ScalarSolid(v, rest);
  }

  // ----- documents -----

  /** The lines of a table, each with its line end. */
  function EmitLines(entries: Table): string
    requires forall i :: 0 <= i < |entries| ==> IsPrintable(entries[i].1)
  {
    if entries == [] then "" else EmitLine(entries[0]) + ("\n" + EmitLines(entries[1..]))
  }

  function EmitBlock(entries: Table): string
    requires IsPrintableTable(entries)
  {
    HEADER + ("\n" + EmitLines(entries))
  }

  /** The blocks of the tables, with an empty line between two. */
  function EmitDocument(tables: seq<Table>): string
    requires forall i :: 0 <= i < |tables| ==> IsPrintableTable(tables[i])
  {
    if tables == [] then ""
    else if |tables| == 1 then EmitBlock(tables[0])
    else EmitBlock(tables[0]) + ("\n" + EmitDocument(tables[1..]))
  }

  function ConsEntry(entry: (string, Value), rest: Option<(Table, string)>): Option<(Table, string)> {
    match rest
    case None => None
    case Some(r) => Some(([entry] + r.0, r.1))
  }

  lemma LineSolid(entry: (string, Value), rest: string)
    requires IsBareKey(entry.0) && IsPrintable(entry.1)
    ensures Solid(EmitLine(entry) + rest) && (EmitLine(entry) + rest)[0] != '['
  {
    hide EmitValue;
    assert (EmitLine(entry) + rest)[0] == entry.0[0] && IsBare(entry.0[0]);
  }

  lemma LineReadsBack(entry: (string, Value), rest: string, seen: set<string>)
    requires IsBareKey(entry.0) && IsPrintable(entry.1) && entry.0 !in seen && NoQuote(rest)
    ensures ParsePair(EmitLine(entry) + rest, seen) == Some((entry, rest))
  {
    hide ParsePair, ParseValue, EmitValue;
    var v := EmitValue(entry.1);
    ValueReadsBack(entry.1, rest);
    PairParses(entry.0, v + rest, entry.1, rest, seen);
    Associative(entry.0, " = " + v, rest);
    Associative(" = ", v, rest);
    assert (entry.0, entry.1) == entry;
  }

  lemma EntryNext(t: string, entry: (string, Value), behind: string, seen: set<string>)
    requires Solid(t) && t[0] != '[' && ParsePair(t, seen) == Some((entry, "\n" + behind))
    ensures ParseEntries(t, seen) == ConsEntry(entry, ParseEntries(behind, seen + {entry.0}))
  {
    hide ParsePair;
    SolidStays(t);
    assert ("\n" + behind)[1..] == behind;
  }

  /** The text behind a table: nothing but blanks, or the next header. */
  predicate EndsTable(rest: string) {
    SkipBlank(rest) == "" || SkipBlank(rest)[0] == '['
  }

  lemma LinesText(entries: Table, rest: string)
    requires entries != [] && forall i :: 0 <= i < |entries| ==> IsPrintable(entries[i].1)
    ensures EmitLines(entries) + rest == EmitLine(entries[0]) + ("\n" + (EmitLines(entries[1..]) + rest))
  {
    hide EmitLine;
    Associative(EmitLine(entries[0]), "\n" + EmitLines(entries[1..]), rest);
    Associative("\n", EmitLines(entries[1..]), rest);
  }

  lemma EntriesEnd(rest: string, seen: set<string>)
    requires EndsTable(rest)
    ensures ParseEntries(rest, seen) == Some(([], SkipBlank(rest)))
  {
  }

  lemma {:induction false} EntriesReadBack(entries: Table, rest: string, seen: set<string>)
    requires IsPrintableTable(entries) && Fresh(entries, seen) && EndsTable(rest)
    ensures ParseEntries(EmitLines(entries) + rest, seen) == Some((entries, SkipBlank(rest)))
    decreases |entries|
  {
    hide ParseEntries, ParsePair, EmitLine, SkipBlank, EndsTable;
    if entries == [] {
      assert EmitLines(entries) + rest == rest;
      EntriesEnd(rest, seen);
    } else {
      FreshNext(entries, seen);
      var behind := EmitLines(entries[1..]) + rest;
      LinesText(entries, rest);
      LineSolid(entries[0], "\n" + behind);
      LineReadsBack(entries[0], "\n" + behind, seen);
      EntryNext(EmitLines(entries) + rest, entries[0], behind, seen);
      EntriesReadBack(entries[1..], rest, seen + {entries[0].0});
    }
  }

  lemma BlockReads(entries: Table, rest: string)
    requires IsPrintableTable(entries) && EndsTable(rest)
    ensures ParseDocument(EmitBlock(entries) + rest)
         == match ParseDocument(SkipBlank(rest)) { case None => None case Some(tables) => Some([entries] + tables) }
  {
    hide ParseEntries, EmitLines, EndsTable;
    var lines := EmitLines(entries) + rest;
    var t := EmitBlock(entries) + rest;
    EntriesReadBack(entries, rest, {});
    Associative(HEADER, "\n" + EmitLines(entries), rest);
    Associative("\n", EmitLines(entries), rest);
    assert t == HEADER + ("\n" + lines);
    HeaderReads(lines);
  }

  lemma HeaderReads(lines: string)
    ensures var t := HEADER + ("\n" + lines);
            SkipBlank(t) == t && StartsWith(t, HEADER) && EndLine(t[|HEADER|..]) == Some(lines)
  {
    var t := HEADER + ("\n" + lines);
    assert t[0..|HEADER|] == HEADER && t[|HEADER|..] == "\n" + lines;
    assert ("\n" + lines)[1..] == lines;
  }

  lemma BlockStarts(entries: Table, rest: string)
    requires IsPrintableTable(entries)
    ensures Solid(EmitBlock(entries) + rest) && (EmitBlock(entries) + rest)[0] == '['
  {
    hide EmitLines;
  }

  lemma DocumentStarts(tables: seq<Table>)
    requires tables != [] && forall i :: 0 <= i < |tables| ==> IsPrintableTable(tables[i])
    ensures Solid(EmitDocument(tables)) && EmitDocument(tables)[0] == '['
  {
    hide EmitBlock;
    BlockStarts(tables[0], "");
    assert EmitBlock(tables[0]) + "" == EmitBlock(tables[0]);
    if |tables| > 1 {
      BlockStarts(tables[0], "\n" + EmitDocument(tables[1..]));
    }
  }

  /** A printed document reads back as the tables it was printed from. */
  lemma {:induction false} DocumentReadsBack(tables: seq<Table>)
    requires forall i :: 0 <= i < |tables| ==> IsPrintableTable(tables[i])
    ensures ParseDocument(EmitDocument(tables)) == Some(tables)
  {
    hide ParseDocument, EmitBlock;
    if tables == [] {
      EmptyDocument();
    } else if |tables| == 1 {
      assert EmitBlock(tables[0]) + "" == EmitBlock(tables[0]);
      BlockReads(tables[0], "");
      EmptyDocument();
      assert [tables[0]] + [] == tables;
    } else {
      var later := EmitDocument(tables[1..]);
      DocumentStarts(tables[1..]);
      SolidStays(later);
      SkipsOne('\n', later);
      BlockReads(tables[0], "\n" + later);
      DocumentReadsBack(tables[1..]);
      assert tables == [tables[0]] + tables[1..];
    }
  }

  lemma EmptyDocument()
    ensures ParseDocument("") == Some([])
  {
  }

  // ----- what is printed, character by character -----

  lemma QuotesPrinted()
    ensures JsonChar('a') == "a" && JsonChar('/') == "/" && JsonChar('\"') == "\\\"" && JsonChar('\\') == "\\\\"
    ensures JsonChar('\n') == "\\n" && JsonChar('\r') == "\\r" && JsonChar('\t') == "\\t"
    ensures JsonChar('\U{8}') == "\\b" && JsonChar('\U{c}') == "\\f"
  {
  }

  /** How an entry of each kind is printed. */
  lemma ScalarsPrinted(a: string)
    requires InPlane0(a)
    ensures EmitLine(("id", Str(a))) == "id" + (" = " + TomlString(a))
    ensures EmitLine(("old", Bool(false))) == "old" + (" = " + "false") && EmitLine(("old", Bool(true))) == "old" + (" = " + "true")
  {
    hide TomlString;
  }

  lemma ListPrinted(a: string, b: string)
    ensures IsPrintable(Arr([Str(a), Str(b)])) <==> InPlane0(a) && InPlane0(b)
    ensures InPlane0(a) && InPlane0(b) ==>
              EmitValue(Arr([Str(a), Str(b)]))
              == "[\n" + ("    " + (TomlString(a) + (",\n" + ("    " + (TomlString(b) + (",\n" + "]"))))))
  {
    hide TomlString, InPlane0;
    var items := [Str(a), Str(b)];
    assert items[0] == Str(a) && items[1] == Str(b);
    assert items[1..] == [Str(b)] && [Str(b)][1..] == [];
    assert EmitItems([Str(b)]) == "    " + (TomlString(b) + (",\n" + "]"));
  }

  lemma InlinePrinted(a: string)
    requires IsPrintable(Tbl([("x", Bool(true)), ("y", Str(a))]))
    ensures EmitValue(Tbl([("x", Bool(true)), ("y", Str(a))]))
         == "{ " + ("x" + (" = " + ("true" + (", " + ("y" + (" = " + (TomlString(a) + " }")))))))
  {
    hide TomlString, IsPrintable;
    assert [("x", Bool(true)), ("y", Str(a))][1..] == [("y", Str(a))];
    assert EmitPairs([("y", Str(a))]) == "y" + (" = " + (TomlString(a) + " }"));
  }

  /** A table is its header and a line for each entry, and a document has an empty line between two. */
  lemma BlocksPrinted(a: (string, Value), b: (string, Value))
    requires IsPrintableTable([a, b]) && IsPrintableTable([b]) && IsPrintable(a.1) && IsPrintable(b.1)
    ensures EmitDocument([[a, b], [b]])
         == ("[[variant]]" + ("\n" + (EmitLine(a) + ("\n" + (EmitLine(b) + ("\n" + ""))))))
            + ("\n" + ("[[variant]]" + ("\n" + (EmitLine(b) + ("\n" + "")))))
  {
    hide EmitLine, IsPrintableTable;
    assert [a, b][1..] == [b] && [b][1..] == [] && [[a, b], [b]][1..] == [[b]];
    assert EmitLines([b]) == EmitLine(b) + ("\n" + "");
    assert EmitBlock([b]) == "[[variant]]" + ("\n" + (EmitLine(b) + ("\n" + "")));
  }
}
