/** The canonical JSON of benchmark reports: `_canonical_json_bytes` prints it, `parse_report_json` reads it back
    with `json.loads`, refuses duplicate fields, and compares the text with the canonical one (RFC 8259). */
module CanonicalJson {
  import opened Wrappers
  import opened TextOrder
  import opened Affix
  import opened Bytes
  import ByteText

  datatype Json =
    | Null
    | Bool(b: bool)
    | Number(n: int)
    | Text(s: string)
    | Array(items: seq<Json>)
    | Object(fields: map<string, Json>)

  /** `NotAscii` is Python's uncaught UnicodeEncodeError when the text is encoded for the comparison. */
  datatype JsonError = InvalidJson | DuplicateField | NotAnObject | ReportRefused | NonCanonical | NotAscii

  // ---------- Printing ----------

  const QUOTE: char := '\"'
  const BACKSLASH: char := '\\'
  const BACKSPACE: char := 8 as char
  const FORM_FEED: char := 12 as char

  function HexDigit(n: nat): char
    requires n < 16
  {
    if n < 10 then (48 + n) as char else (87 + n) as char
  }

  function Hex4(n: nat): (h: string)
    requires n < 0x1_0000
    ensures |h| == 4
  {
    [HexDigit(n / 0x1000), HexDigit(n / 0x100 % 0x10), HexDigit(n / 0x10 % 0x10), HexDigit(n % 0x10)]
  }

  /** With `ensure_ascii` everything outside the space to the tilde becomes an escape, without it only the quote, the
      backslash and control characters do. */
  function EscapeChar(c: char, ascii: bool): (e: string)
    ensures e != ""
  {
    var n := c as int;
    if c == QUOTE then "\\\""
    else if c == BACKSLASH then "\\\\"
    else if c == '\n' then "\\n"
    else if c == '\r' then "\\r"
    else if c == '\t' then "\\t"
    else if c == FORM_FEED then "\\f"
    else if c == BACKSPACE then "\\b"
    else if 0x20 <= n && (!ascii || n < 0x7F) then [c]
    else if n < 0x1_0000 then "\\u" + Hex4(n)
    else
      var v := n - 0x1_0000;
      "\\u" + Hex4(0xD800 + v / 0x400) + "\\u" + Hex4(0xDC00 + v % 0x400)
  }

  function EscapeText(s: string, ascii: bool): string {
    if s == "" then "" else EscapeChar(s[0], ascii) + EscapeText(s[1..], ascii)
  }

  function Quote(s: string, ascii: bool): string { [QUOTE] + EscapeText(s, ascii) + [QUOTE] }

  function Digits(n: nat): (d: string)
    ensures d != "" && forall i :: 0 <= i < |d| ==> IsDigit(d[i])
    ensures d[0] == '0' ==> n == 0 && d == "0"
  {
    if n < 10 then [(48 + n) as char] else Digits(n / 10) + [(48 + n % 10) as char]
  }

  function PrintNumber(n: int): string { if n < 0 then "-" + Digits(-n) else Digits(n) }

  function Print(j: Json, ascii: bool): string
    decreases j, 1
  {
    match j
    case Null => "null"
    case Bool(b) => if b then "true" else "false"
    case Number(n) => PrintNumber(n)
    case Text(s) => Quote(s, ascii)
    case Array(items) => "[" + PrintItems(items, ascii) + "]"
    case Object(fields) => "{" + PrintFields(j, SortKeys(fields.Keys), ascii) + "}"
  }

  function PrintItems(items: seq<Json>, ascii: bool): string
    decreases items, 0
  {
    if items == [] then ""
    else if |items| == 1 then Print(items[0], ascii)
    else Print(items[0], ascii) + "," + PrintItems(items[1..], ascii)
  }

  function PrintFields(j: Json, keys: seq<string>, ascii: bool): string
    requires j.Object? && forall k :: k in keys ==> k in j.fields
    decreases j, 0, |keys|
  {
    if keys == [] then ""
    else
      Quote(keys[0], ascii) + ":" + Print(j.fields[keys[0]], ascii) +
      (if |keys| == 1 then "" else "," + PrintFields(j, keys[1..], ascii))
  }

  /** `json.dumps(value, sort_keys=True, separators=(",", ":"), ensure_ascii=ascii) + "\n"`. */
  function Dump(j: Json, ascii: bool): string { Print(j, ascii) + "\n" }

  function Canonical(j: Json): string { Dump(j, true) }

  // ---------- Reading ----------

  datatype Parsed<T> = Parsed(value: T, rest: string)

  predicate IsSpace(c: char) { c == ' ' || c == '\t' || c == '\n' || c == '\r' }

  function SkipSpace(s: string): (r: string)
    ensures |r| <= |s| && (r != "" ==> !IsSpace(r[0]))
  {
    if s != "" && IsSpace(s[0]) then SkipSpace(s[1..]) else s
  }

  predicate IsDigit(c: char) { '0' <= c <= '9' }

  function HexValue(c: char): Option<nat> {
    if '0' <= c <= '9' then Some(c as nat - 48)
    else if 'a' <= c <= 'f' then Some(c as nat - 87)
    else if 'A' <= c <= 'F' then Some(c as nat - 55)
    else None
  }

  /** The value of four hexadecimal digits. */
  function ReadHex4(s: string): (r: Option<Parsed<nat>>)
    ensures r.Some? ==> |r.value.rest| < |s| && r.value.value < 0x1_0000
  {
    if |s| < 4 then None
    else match (HexValue(s[0]), HexValue(s[1]), HexValue(s[2]), HexValue(s[3]))
      case (Some(a), Some(b), Some(c), Some(d)) =>
        if a < 16 && b < 16 && c < 16 && d < 16 then Some(Parsed(((a * 0x10 + b) * 0x10 + c) * 0x10 + d, s[4..])) else None
      case _ => None
  }

  /** The character after a backslash. A surrogate that is not half of a pair is outside this model. */
  function ReadEscape(s: string): (r: Option<Parsed<char>>)
    ensures r.Some? ==> |r.value.rest| < |s|
  {
    if s == "" then None
    else if s[0] == QUOTE || s[0] == BACKSLASH || s[0] == '/' then Some(Parsed(s[0], s[1..]))
    else if s[0] == 'n' then Some(Parsed('\n', s[1..]))
    else if s[0] == 'r' then Some(Parsed('\r', s[1..]))
    else if s[0] == 't' then Some(Parsed('\t', s[1..]))
    else if s[0] == 'f' then Some(Parsed(FORM_FEED, s[1..]))
    else if s[0] == 'b' then Some(Parsed(BACKSPACE, s[1..]))
    else if s[0] != 'u' then None
    else match ReadHex4(s[1..])
      case None => None
      case Some(high) =>
        if high.value < 0xD800 || 0xE000 <= high.value then Some(Parsed(high.value as char, high.rest))
        else if 0xDC00 <= high.value || |high.rest| < 2 || high.rest[0] != BACKSLASH || high.rest[1] != 'u' then None
        else match ReadHex4(high.rest[2..])
          case None => None
          case Some(low) =>
            if 0xDC00 <= low.value < 0xE000 then
              Some(Parsed((0x1_0000 + (high.value - 0xD800) * 0x400 + (low.value - 0xDC00)) as char, low.rest))
            else None
  }

  /** A string after its opening quote. Control characters are refused. */
  function ReadText(s: string): (r: Option<Parsed<string>>)
    ensures r.Some? ==> |r.value.rest| < |s|
  {
    if s == "" then None
    else if s[0] == QUOTE then Some(Parsed("", s[1..]))
    else if s[0] as int < 0x20 then None
    else
      var first := if s[0] == BACKSLASH then ReadEscape(s[1..]) else Some(Parsed(s[0], s[1..]));
      if first.None? then None
      else match ReadText(first.value.rest)
        case None => None
        case Some(more) => Some(Parsed([first.value.value] + more.value, more.rest))
  }

  function DigitRun(s: string): (n: nat)
    ensures n <= |s| && forall i :: 0 <= i < n ==> IsDigit(s[i])
    ensures n < |s| ==> !IsDigit(s[n])
  {
    if s == "" || !IsDigit(s[0]) then 0 else 1 + DigitRun(s[1..])
  }

  function DecimalValue(d: string): nat
    requires forall i :: 0 <= i < |d| ==> IsDigit(d[i])
  {
    if d == "" then 0
    else
      assert IsDigit(d[|d| - 1]);
      10 * DecimalValue(d[..|d| - 1]) + (d[|d| - 1] as int - 48)
  }

  /** A fraction or exponent follows, so the number is a float: outside this model. */
  predicate FloatFollows(s: string) {
    || (|s| > 1 && s[0] == '.' && IsDigit(s[1]))
    || (|s| > 1 && (s[0] == 'e' || s[0] == 'E') &&
        (IsDigit(s[1]) || (|s| > 2 && (s[1] == '+' || s[1] == '-') && IsDigit(s[2]))))
  }

  /** `-?(0|[1-9][0-9]*)`. */
  function ReadNumber(s: string): (r: Option<Parsed<int>>)
    ensures r.Some? ==> |r.value.rest| < |s|
  {
    var negative := s != "" && s[0] == '-';
    var digits := if negative then s[1..] else s;
    var n := if digits != "" && digits[0] == '0' then 1 else DigitRun(digits);
    if n == 0 || FloatFollows(digits[n..]) then None
    else
      var value := DecimalValue(digits[..n]);
      Some(Parsed(if negative then -(value as int) else value as int, digits[n..]))
  }

  /** The pairs of an object as a dictionary, unless a key comes twice: `_closed_object`. */
  function Close(pairs: seq<(string, Json)>): (r: Result<map<string, Json>, JsonError>)
    ensures r.Err? ==> r.error == DuplicateField
  {
    if pairs == [] then Ok(map[])
    else
      var n := |pairs| - 1;
      match Close(pairs[..n])
      case Err(e) => Err(e)
      case Ok(m) => if pairs[n].0 in m then Err(DuplicateField) else Ok(m[pairs[n].0 := pairs[n].1])
  }

  ghost predicate DistinctFields(pairs: seq<(string, Json)>) {
    forall i, j :: 0 <= i < j < |pairs| ==> pairs[i].0 != pairs[j].0
  }

  ghost predicate HoldsPairs(m: map<string, Json>, pairs: seq<(string, Json)>) {
    && (forall k :: k in m ==> exists i :: 0 <= i < |pairs| && pairs[i].0 == k)
    && (forall i :: 0 <= i < |pairs| ==> pairs[i].0 in m && m[pairs[i].0] == pairs[i].1)
  }

  lemma DistinctStep(pairs: seq<(string, Json)>)
    requires pairs != []
    ensures DistinctFields(pairs) <==>
            DistinctFields(pairs[..|pairs| - 1]) && forall i :: 0 <= i < |pairs| - 1 ==> pairs[i].0 != pairs[|pairs| - 1].0
  {
    var before := pairs[..|pairs| - 1];
    assert forall i :: 0 <= i < |before| ==> before[i] == pairs[i];
    if DistinctFields(before) && forall i :: 0 <= i < |before| ==> pairs[i].0 != pairs[|before|].0 {
      forall i, j | 0 <= i < j < |pairs| ensures pairs[i].0 != pairs[j].0 {
        if j < |before| { assert before[i].0 != before[j].0; }
      }
    }
  }

  lemma HoldsStep(m: map<string, Json>, pairs: seq<(string, Json)>, key: string, value: Json)
    requires HoldsPairs(m, pairs) && key !in m
    ensures HoldsPairs(m[key := value], pairs + [(key, value)])
  {
    var all, more := pairs + [(key, value)], m[key := value];
    forall k | k in more ensures exists i :: 0 <= i < |all| && all[i].0 == k {
      if k == key {
        assert all[|pairs|].0 == k;
      } else {
        var i :| 0 <= i < |pairs| && pairs[i].0 == k;
        assert all[i].0 == k;
      }
    }
    forall i | 0 <= i < |all| ensures all[i].0 in more && more[all[i].0] == all[i].1 {
      assert i < |pairs| ==> all[i] == pairs[i];
    }
  }

  /** Exactly the objects without a repeated field are accepted, with exactly their fields. */
  lemma {:induction false} CloseAccepts(pairs: seq<(string, Json)>)
    ensures Close(pairs).Ok? <==> DistinctFields(pairs)
    ensures Close(pairs).Ok? ==> HoldsPairs(Close(pairs).value, pairs)
  {
    if pairs != [] {
      var n := |pairs| - 1;
      var before := pairs[..n];
      var (key, value) := pairs[n];
      CloseAccepts(before);
      DistinctStep(pairs);
      assert forall i :: 0 <= i < n ==> before[i] == pairs[i];
      assert pairs == before + [(key, value)];
      if Close(before).Ok? {
        var m := Close(before).value;
        KeysOfPairs(m, before, key);
        if key !in m { HoldsStep(m, before, key, value); }
      }
    }
  }

  lemma KeysOfPairs(m: map<string, Json>, pairs: seq<(string, Json)>, key: string)
    requires HoldsPairs(m, pairs)
    ensures key in m <==> exists i :: 0 <= i < |pairs| && pairs[i].0 == key
  {
  }

  method ClosedObject(pairs: seq<(string, Json)>) returns (r: Result<map<string, Json>, JsonError>)
    ensures r == Close(pairs)
  {
    var result: map<string, Json> := map[];
    for i := 0 to |pairs|
      invariant Close(pairs[..i]) == Ok(result)
    {
      assert pairs[..i + 1][..i] == pairs[..i];
      var (key, value) := pairs[i];
      if key in result {
        FirstClash(pairs, i + 1);
        return Err(DuplicateField);
      }
      result := result[key := value];
    }
    assert pairs[..|pairs|] == pairs;
    r := Ok(result);
  }

  lemma FirstClash(pairs: seq<(string, Json)>, n: nat)
    requires n <= |pairs| && Close(pairs[..n]).Err?
    ensures Close(pairs) == Err(DuplicateField)
  {
    CloseAccepts(pairs[..n]);
    CloseAccepts(pairs);
    var i, j :| 0 <= i < j < n && pairs[..n][i].0 == pairs[..n][j].0;
    assert pairs[i].0 == pairs[j].0;
  }

  /** `scan_once`. */
  function ReadValue(s: string): (r: Result<Parsed<Json>, JsonError>)
    ensures r.Ok? ==> |r.value.rest| < |s|
    ensures r.Err? ==> r.error == InvalidJson || r.error == DuplicateField
    decreases |s|, 0
  {
    if s == "" then Err(InvalidJson)
    else if s[0] == QUOTE then
      match ReadText(s[1..])
      case None => Err(InvalidJson)
      case Some(t) => Ok(Parsed(Text(t.value), t.rest))
    else if s[0] == '[' then
      var inner := SkipSpace(s[1..]);
      if inner != "" && inner[0] == ']' then Ok(Parsed(Array([]), inner[1..]))
      else match ReadItems(inner)
        case Err(e) => Err(e)
        case Ok(items) => Ok(Parsed(Array(items.value), items.rest))
    else if s[0] == '{' then
      var inner := SkipSpace(s[1..]);
      if inner != "" && inner[0] == '}' then Ok(Parsed(Object(map[]), inner[1..]))
      else match ReadFields(inner)
        case Err(e) => Err(e)
        case Ok(pairs) =>
          match Close(pairs.value)
          case Err(e) => Err(e)
          case Ok(fields) => Ok(Parsed(Object(fields), pairs.rest))
    else if StartsWith(s, "null") then Ok(Parsed(Null, s[4..]))
    else if StartsWith(s, "true") then Ok(Parsed(Bool(true), s[4..]))
    else if StartsWith(s, "false") then Ok(Parsed(Bool(false), s[5..]))
    else match ReadNumber(s)
      case None => Err(InvalidJson)
      case Some(n) => Ok(Parsed(Number(n.value), n.rest))
  }

  /** The items of an array that has at least one, up to and including its closing bracket. */
  function ReadItems(s: string): (r: Result<Parsed<seq<Json>>, JsonError>)
    ensures r.Ok? ==> |r.value.rest| < |s|
    ensures r.Err? ==> r.error == InvalidJson || r.error == DuplicateField
    decreases |s|, 1
  {
    match ReadValue(s)
    case Err(e) => Err(e)
    case Ok(first) =>
      var after := SkipSpace(first.rest);
      if after == "" then Err(InvalidJson)
      else if after[0] == ']' then Ok(Parsed([first.value], after[1..]))
      else if after[0] != ',' then Err(InvalidJson)
      else match ReadItems(SkipSpace(after[1..]))
        case Err(e) => Err(e)
        case Ok(more) => Ok(Parsed([first.value] + more.value, more.rest))
  }

  /** The fields of an object that has at least one, up to and including its closing brace. */
  function ReadFields(s: string): (r: Result<Parsed<seq<(string, Json)>>, JsonError>)
    ensures r.Ok? ==> |r.value.rest| < |s|
    ensures r.Err? ==> r.error == InvalidJson || r.error == DuplicateField
    decreases |s|, 1
  {
    if s == "" || s[0] != QUOTE then Err(InvalidJson)
    else match ReadText(s[1..])
      case None => Err(InvalidJson)
      case Some(key) =>
        var colon := SkipSpace(key.rest);
        if colon == "" || colon[0] != ':' then Err(InvalidJson)
        else match ReadValue(SkipSpace(colon[1..]))
          case Err(e) => Err(e)
          case Ok(value) =>
            var after := SkipSpace(value.rest);
            if after == "" then Err(InvalidJson)
            else if after[0] == '}' then Ok(Parsed([(key.value, value.value)], after[1..]))
            else if after[0] != ',' then Err(InvalidJson)
            else match ReadFields(SkipSpace(after[1..]))
              case Err(e) => Err(e)
              case Ok(more) => Ok(Parsed([(key.value, value.value)] + more.value, more.rest))
  }

  /** `json.loads` with the closed-object hook. */
  function Loads(text: string): Result<Json, JsonError> {
    match ReadValue(SkipSpace(text))
    case Err(e) => Err(e)
    case Ok(p) => if SkipSpace(p.rest) == "" then Ok(p.value) else Err(InvalidJson)
  }

  /** `parse_report_json` for text: read, require an object, validate it, and compare. `accepts` says which values
      `_validate_report` lets pass. The comparison encodes the text first. */
  function ParseExact(accepts: Json -> bool, text: string): Result<Json, JsonError> {
    match Loads(text)
    case Err(e) => Err(e)
    case Ok(j) =>
      if !j.Object? then Err(NotAnObject)
      else if !accepts(j) then Err(ReportRefused)
      else if !ByteText.IsAscii(text) then Err(NotAscii)
      else if text == Canonical(j) then Ok(j)
      else Err(NonCanonical)
  }

  /** The same for bytes: decoding comes first. */
  function ParseExactBytes(accepts: Json -> bool, content: bytes): Result<Json, JsonError> {
    match ByteText.DecodeAscii(content)
    case None => Err(InvalidJson)
    case Some(text) => ParseExact(accepts, text)
  }

  // ---------- Escapes ----------

  lemma ReadHexOf(n: nat, rest: string)
    requires n < 0x1_0000
    ensures ReadHex4(Hex4(n) + rest) == Some(Parsed(n, rest))
  {
    var s := Hex4(n) + rest;
    var a, b, c, d := n / 0x1000, n / 0x100 % 0x10, n / 0x10 % 0x10, n % 0x10;
    HexRoundTrip(a);
    HexRoundTrip(b);
    HexRoundTrip(c);
    HexRoundTrip(d);
    assert s[0] == HexDigit(a) && s[1] == HexDigit(b) && s[2] == HexDigit(c) && s[3] == HexDigit(d);
    HexSum(n);
    assert s[4..] == rest;
  }

  lemma HexRoundTrip(n: nat)
    requires n < 16
    ensures HexValue(HexDigit(n)) == Some(n)
  {
  }

  lemma HexSum(n: nat)
    ensures ((n / 0x1000 * 0x10 + n / 0x100 % 0x10) * 0x10 + n / 0x10 % 0x10) * 0x10 + n % 0x10 == n
  {
    assert n / 0x100 == (n / 0x10) / 0x10 && n / 0x1000 == (n / 0x100) / 0x10;
  }

  lemma ReadShortEscape(c: char, rest: string, ascii: bool)
    requires |EscapeChar(c, ascii)| == 2
    ensures EscapeChar(c, ascii)[0] == BACKSLASH && ReadEscape([EscapeChar(c, ascii)[1]] + rest) == Some(Parsed(c, rest))
  {
    hide Hex4, ReadHex4;
    assert ([EscapeChar(c, ascii)[1]] + rest)[1..] == rest;
  }

  lemma ReadUnicodeEscape(n: nat, rest: string)
    requires n < 0xD800 || 0xE000 <= n < 0x1_0000
    ensures ReadEscape("u" + Hex4(n) + rest) == Some(Parsed(n as char, rest))
  {
    hide Hex4, ReadHex4;
    var s := "u" + Hex4(n) + rest;
    assert s[0] == 'u' && s[1..] == Hex4(n) + rest;
    ReadHexOf(n, rest);
  }

  lemma ReadPairEscape(high: nat, low: nat, rest: string)
    requires 0xD800 <= high < 0xDC00 <= low < 0xE000
    ensures ReadEscape("u" + Hex4(high) + "\\u" + Hex4(low) + rest) ==
            Some(Parsed((0x1_0000 + (high - 0xD800) * 0x400 + (low - 0xDC00)) as char, rest))
  {
    hide Hex4, ReadHex4;
    var more := "\\u" + Hex4(low) + rest;
    var s := "u" + Hex4(high) + "\\u" + Hex4(low) + rest;
    assert s[0] == 'u' && s[1..] == Hex4(high) + more;
    ReadHexOf(high, more);
    assert more[0] == BACKSLASH && more[1] == 'u' && more[2..] == Hex4(low) + rest;
    ReadHexOf(low, rest);
  }

  lemma ReadEscapeOf(c: char, rest: string, ascii: bool)
    requires EscapeChar(c, ascii)[0] == BACKSLASH
    ensures ReadEscape(EscapeChar(c, ascii)[1..] + rest) == Some(Parsed(c, rest))
  {
    hide Hex4, ReadHex4, ReadEscape;
    var n := c as int;
    var e := EscapeChar(c, ascii);
    if |e| == 2 {
      ReadShortEscape(c, rest, ascii);
      assert e[1..] == [e[1]];
    } else if n < 0x1_0000 {
      ReadUnicodeEscape(n, rest);
      assert e == "\\u" + Hex4(n);
      assert e[1..] == "u" + Hex4(n);
    } else {
      var v := n - 0x1_0000;
      var high, low := 0xD800 + v / 0x400, 0xDC00 + v % 0x400;
      ReadPairEscape(high, low, rest);
      assert e == "\\u" + Hex4(high) + "\\u" + Hex4(low);
      assert e[1..] == "u" + Hex4(high) + "\\u" + Hex4(low);
    }
  }

  /** Escaping and reading back, before any closing quote and rest. */
  lemma {:induction false} ReadTextOf(t: string, rest: string, ascii: bool)
    ensures ReadText(EscapeText(t, ascii) + [QUOTE] + rest) == Some(Parsed(t, rest))
  {
    hide EscapeChar, ReadEscape;
    var s := EscapeText(t, ascii) + [QUOTE] + rest;
    if t == "" {
      assert s[0] == QUOTE && s[1..] == rest;
    } else {
      ReadTextOf(t[1..], rest, ascii);
      var e := EscapeChar(t[0], ascii);
      var more := EscapeText(t[1..], ascii) + [QUOTE] + rest;
      assert s == e + more;
      ReadTextStep(t[0], more, ascii);
      assert t == [t[0]] + t[1..];
    }
  }

  /** Reading a text takes one printed character at a time. */
  lemma ReadTextStep(c: char, more: string, ascii: bool)
    requires ReadText(more).Some?
    ensures ReadText(EscapeChar(c, ascii) + more) ==
            Some(Parsed([c] + ReadText(more).value.value, ReadText(more).value.rest))
  {
    hide EscapeChar, ReadEscape;
    var e := EscapeChar(c, ascii);
    var s := e + more;
    assert s[0] == e[0] && s[1..] == e[1..] + more;
    PlainOrEscaped(c, ascii);
    if e[0] == BACKSLASH {
      ReadEscapeOf(c, more, ascii);
    } else {
      assert s[1..] == more;
    }
  }

  lemma PlainOrEscaped(c: char, ascii: bool)
    ensures EscapeChar(c, ascii)[0] == BACKSLASH || (EscapeChar(c, ascii) == [c] && c != QUOTE && c != BACKSLASH && 0x20 <= c as int)
  {
  }

  // ---------- Numbers ----------

  lemma {:induction false} DigitsValue(n: nat)
    ensures DecimalValue(Digits(n)) == n
  {
    var d := Digits(n);
    if n >= 10 {
      DigitsValue(n / 10);
      assert d[..|d| - 1] == Digits(n / 10);
    } else {
      assert d[..0] == "";
    }
  }

  lemma {:induction false} RunOf(d: string, rest: string)
    requires forall i :: 0 <= i < |d| ==> IsDigit(d[i])
    requires rest == "" || !IsDigit(rest[0])
    ensures DigitRun(d + rest) == |d|
  {
    if d == "" {
      assert d + rest == rest;
    } else {
      RunOf(d[1..], rest);
      assert (d + rest)[1..] == d[1..] + rest;
    }
  }

  /** What may follow a value inside canonical text. */
  predicate Stops(rest: string) { rest == "" || rest[0] in {',', ']', '}', '\n'} }

  lemma ReadDigits(n: nat, rest: string)
    requires Stops(rest)
    ensures var s := Digits(n) + rest;
            IsDigit(s[0]) && s[0] != '-' &&
            var k := if s[0] == '0' then 1 else DigitRun(s);
            k == |Digits(n)| && s[..k] == Digits(n) && s[k..] == rest && !FloatFollows(rest)
  {
    var d := Digits(n);
    assert IsDigit(d[0]);
    RunOf(d, rest);
  }

  lemma ReadNumberOf(n: int, rest: string)
    requires Stops(rest)
    ensures ReadNumber(PrintNumber(n) + rest) == Some(Parsed(n, rest))
  {
    hide Digits, DecimalValue, DigitRun, FloatFollows, Stops, IsDigit;
    var m: nat := if n < 0 then -n else n;
    var s := PrintNumber(n) + rest;
    ReadDigits(m, rest);
    DigitsValue(m);
    if n < 0 {
      assert s == "-" + (Digits(m) + rest);
      assert s[1..] == Digits(m) + rest;
    } else {
      assert s == Digits(m) + rest;
    }
  }

  // ---------- Values ----------

  /** The first character of printed values: never a space, bracket closer or comma. */
  lemma PrintStarts(j: Json, ascii: bool)
    ensures Print(j, ascii) != "" && !IsSpace(Print(j, ascii)[0]) && Print(j, ascii)[0] != ']' && Print(j, ascii)[0] != '}'
  {
    match j
    case Number(n) => assert IsDigit(Digits(if n < 0 then -n else n)[0]);
    case _ =>
  }

  lemma SkipNothing(s: string)
    requires s != "" && !IsSpace(s[0])
    ensures SkipSpace(s) == s
  {
  }

  lemma {:induction false} ReadPrinted(j: Json, rest: string, ascii: bool)
    requires Stops(rest)
    ensures ReadValue(Print(j, ascii) + rest) == Ok(Parsed(j, rest))
    decreases j, 1
  {
    hide ReadText, EscapeText, PrintItems, PrintFields, ReadItems, ReadFields, ReadNumber, Close, SkipSpace, SortKeys, PrintNumber;
    var s := Print(j, ascii) + rest;
    match j {
      case Null => ReadWord("null", rest);
      case Bool(b) => ReadWord(if b then "true" else "false", rest);
      case Number(n) => ReadPrintedNumber(n, rest);
      case Text(t) =>
        assert s[1..] == EscapeText(t, ascii) + [QUOTE] + rest;
        ReadTextOf(t, rest, ascii);
      case Array(items) => ReadPrintedArray(items, rest, ascii);
      case Object(fields) => ReadPrintedObject(j, rest, ascii);
    }
  }

  lemma ReadWord(word: string, rest: string)
    requires word == "null" || word == "true" || word == "false"
    ensures ReadValue(word + rest) ==
            Ok(Parsed(if word == "null" then Null else Bool(word == "true"), rest))
  {
    var s := word + rest;
    assert s[..|word|] == word && s[|word|..] == rest;
    assert s[0] == word[0];
    if word == "true" { assert s[..4][0] == 't'; }
    if word == "false" { assert !StartsWith(s, "null") by { if |s| >= 4 { assert s[..4][0] == 'f'; } }
                         assert !StartsWith(s, "true") by { if |s| >= 4 { assert s[..4][0] == 'f'; } } }
  }

  lemma ReadPrintedNumber(n: int, rest: string)
    requires Stops(rest)
    ensures ReadValue(PrintNumber(n) + rest) == Ok(Parsed(Number(n), rest))
  {
    hide ReadNumber;
    var s := PrintNumber(n) + rest;
    NumberStarts(n);
    assert s[0] == PrintNumber(n)[0];
    assert |s| >= 4 ==> s[..4][0] == s[0];
    assert |s| >= 5 ==> s[..5][0] == s[0];
    ReadNumberOf(n, rest);
  }

  lemma NumberStarts(n: int)
    ensures PrintNumber(n) != "" && (PrintNumber(n)[0] == '-' || IsDigit(PrintNumber(n)[0]))
  {
    assert IsDigit(Digits(if n < 0 then -n else n)[0]);
  }

  lemma ReadPrintedArray(items: seq<Json>, rest: string, ascii: bool)
    requires Stops(rest)
    ensures ReadValue(Print(Array(items), ascii) + rest) == Ok(Parsed(Array(items), rest))
    decreases items, 2
  {
    hide ReadItems, ReadFields, ReadText, ReadNumber, Close, PrintFields, Quote;
    var s := Print(Array(items), ascii) + rest;
    if items == [] {
      assert s == "[" + "]" + rest;
      assert s[1..] == "]" + rest && ("]" + rest)[1..] == rest;
      SkipNothing("]" + rest);
    } else {
      var inner := PrintItems(items, ascii) + ("]" + rest);
      assert s[1..] == inner;
      PrintStarts(items[0], ascii);
      assert PrintItems(items, ascii) != "";
      assert inner[0] == Print(items[0], ascii)[0];
      SkipNothing(inner);
      ReadPrintedItems(items, rest, ascii);
    }
  }

  lemma LastItem(s: string, j: Json, rest: string)
    requires ReadValue(s) == Ok(Parsed(j, "]" + rest))
    ensures ReadItems(s) == Ok(Parsed([j], rest))
  {
    hide ReadValue;
    var after := "]" + rest;
    SkipNothing(after);
    assert after[1..] == rest;
  }

  lemma MoreItems(s: string, j: Json, more: string, items: seq<Json>, rest: string)
    requires ReadValue(s) == Ok(Parsed(j, "," + more))
    requires more != "" && !IsSpace(more[0]) && ReadItems(more) == Ok(Parsed(items, rest))
    ensures ReadItems(s) == Ok(Parsed([j] + items, rest))
  {
    hide ReadValue;
    var after := "," + more;
    SkipNothing(after);
    SkipNothing(more);
    assert after[1..] == more;
  }

  lemma ItemsSplit(items: seq<Json>, tail: string, ascii: bool)
    requires items != []
    ensures |items| == 1 ==> PrintItems(items, ascii) + tail == Print(items[0], ascii) + tail
    ensures |items| > 1 ==>
              PrintItems(items, ascii) + tail == Print(items[0], ascii) + ("," + (PrintItems(items[1..], ascii) + tail))
  {
    hide Print;
  }

  lemma ItemsStart(items: seq<Json>, tail: string, ascii: bool)
    requires items != []
    ensures PrintItems(items, ascii) + tail != "" && !IsSpace((PrintItems(items, ascii) + tail)[0])
  {
    hide Print, IsSpace;
    PrintStarts(items[0], ascii);
  }

  lemma {:induction false} ReadPrintedItems(items: seq<Json>, rest: string, ascii: bool)
    requires items != [] && Stops(rest)
    ensures ReadItems(PrintItems(items, ascii) + ("]" + rest)) == Ok(Parsed(items, rest))
    decreases items, 1
  {
    hide Print, PrintItems, ReadItems, ReadValue, SkipSpace, IsSpace;
    var tail := "]" + rest;
    ItemsSplit(items, tail, ascii);
    var s := PrintItems(items, ascii) + tail;
    if |items| == 1 {
      ReadPrinted(items[0], tail, ascii);
      LastItem(s, items[0], rest);
      assert items == [items[0]];
    } else {
      var more := PrintItems(items[1..], ascii) + tail;
      ReadPrinted(items[0], "," + more, ascii);
      ItemsStart(items[1..], tail, ascii);
      ReadPrintedItems(items[1..], rest, ascii);
      MoreItems(s, items[0], more, items[1..], rest);
      assert items == [items[0]] + items[1..];
    }
  }

  /** The fields in printing order. */
  function Pairs(j: Json, keys: seq<string>): (pairs: seq<(string, Json)>)
    requires j.Object? && forall k :: k in keys ==> k in j.fields
    ensures |pairs| == |keys| && forall i :: 0 <= i < |keys| ==> pairs[i] == (keys[i], j.fields[keys[i]])
  {
    if keys == [] then [] else [(keys[0], j.fields[keys[0]])] + Pairs(j, keys[1..])
  }

  /** A key and its colon are consumed before the value `v`. */
  lemma ReadKey(key: string, v: string, ascii: bool)
    requires v != "" && !IsSpace(v[0])
    ensures var s := Quote(key, ascii) + ":" + v;
            s[0] == QUOTE && ReadText(s[1..]) == Some(Parsed(key, ":" + v)) &&
            SkipSpace(":" + v) == ":" + v && SkipSpace((":" + v)[1..]) == v
  {
    var s := Quote(key, ascii) + ":" + v;
    assert s == [QUOTE] + (EscapeText(key, ascii) + [QUOTE] + (":" + v));
    assert s[1..] == EscapeText(key, ascii) + [QUOTE] + (":" + v);
    ReadTextOf(key, ":" + v, ascii);
    SkipNothing(":" + v);
    SkipNothing(v);
    assert (":" + v)[1..] == v;
  }

  lemma LastField(key: string, v: string, value: Json, rest: string, ascii: bool)
    requires v != "" && !IsSpace(v[0]) && ReadValue(v) == Ok(Parsed(value, "}" + rest))
    ensures ReadFields(Quote(key, ascii) + ":" + v) == Ok(Parsed([(key, value)], rest))
  {
    hide ReadValue, ReadText, Quote, SkipSpace;
    ReadKey(key, v, ascii);
    var after := "}" + rest;
    SkipNothing(after);
    assert after[1..] == rest;
  }

  lemma MoreFields(key: string, v: string, value: Json, more: string, pairs: seq<(string, Json)>, rest: string, ascii: bool)
    requires v != "" && !IsSpace(v[0]) && ReadValue(v) == Ok(Parsed(value, "," + more))
    requires more != "" && !IsSpace(more[0]) && ReadFields(more) == Ok(Parsed(pairs, rest))
    ensures ReadFields(Quote(key, ascii) + ":" + v) == Ok(Parsed([(key, value)] + pairs, rest))
  {
    hide ReadValue, ReadText, Quote, SkipSpace;
    ReadKey(key, v, ascii);
    var after := "," + more;
    SkipNothing(after);
    SkipNothing(more);
    assert after[1..] == more;
  }

  lemma {:induction false} ReadPrintedFields(j: Json, keys: seq<string>, rest: string, ascii: bool)
    requires j.Object? && keys != [] && (forall k :: k in keys ==> k in j.fields) && Stops(rest)
    ensures ReadFields(PrintFields(j, keys, ascii) + "}" + rest) == Ok(Parsed(Pairs(j, keys), rest))
    decreases j, 0, |keys|
  {
    hide Print, ReadValue, ReadFields, Quote;
    var s := PrintFields(j, keys, ascii) + "}" + rest;
    var value := j.fields[keys[0]];
    PrintStarts(value, ascii);
    if |keys| == 1 {
      var v := Print(value, ascii) + ("}" + rest);
      assert s == Quote(keys[0], ascii) + ":" + v;
      ReadPrinted(value, "}" + rest, ascii);
      LastField(keys[0], v, value, rest, ascii);
      assert Pairs(j, keys) == [(keys[0], value)];
    } else {
      var more := PrintFields(j, keys[1..], ascii) + "}" + rest;
      var v := Print(value, ascii) + ("," + more);
      assert s == Quote(keys[0], ascii) + ":" + v;
      FieldsStart(j, keys[1..], ascii);
      ReadPrinted(value, "," + more, ascii);
      ReadPrintedFields(j, keys[1..], rest, ascii);
      MoreFields(keys[0], v, value, more, Pairs(j, keys[1..]), rest, ascii);
    }
  }

  lemma FieldsStart(j: Json, keys: seq<string>, ascii: bool)
    requires j.Object? && keys != [] && forall k :: k in keys ==> k in j.fields
    ensures PrintFields(j, keys, ascii) != "" && PrintFields(j, keys, ascii)[0] == QUOTE
  {
  }

  lemma ReadEmptyObject(rest: string)
    ensures ReadValue("{}" + rest) == Ok(Parsed(Object(map[]), rest))
  {
    hide ReadItems, ReadFields, ReadText, ReadNumber, Close, StartsWith;
    var s := "{}" + rest;
    assert s[1..] == "}" + rest && ("}" + rest)[1..] == rest;
    SkipNothing("}" + rest);
  }

  lemma ReadSomeObject(inner: string, pairs: seq<(string, Json)>, rest: string)
    requires inner != "" && inner[0] == QUOTE && ReadFields(inner) == Ok(Parsed(pairs, rest)) && Close(pairs).Ok?
    ensures ReadValue("{" + inner) == Ok(Parsed(Object(Close(pairs).value), rest))
  {
    hide ReadItems, ReadFields, ReadText, ReadNumber, Close, StartsWith;
    var s := "{" + inner;
    assert s[1..] == inner;
    SkipNothing(inner);
  }

  lemma PrintObject(j: Json, ascii: bool)
    requires j.Object?
    ensures Print(j, ascii) == "{" + PrintFields(j, SortKeys(j.fields.Keys), ascii) + "}"
  {
  }

  lemma ReadPrintedObject(j: Json, rest: string, ascii: bool)
    requires j.Object? && Stops(rest)
    ensures ReadValue(Print(j, ascii) + rest) == Ok(Parsed(j, rest))
    decreases j, 0
  {
    hide ReadFields, PrintFields, Close, ReadValue, Print, SortKeys;
    var keys := SortKeys(j.fields.Keys);
    PrintObject(j, ascii);
    if keys == [] {
      NoFields(j.fields);
      EmptyFields(j, ascii);
      assert Print(j, ascii) + rest == "{}" + rest;
      ReadEmptyObject(rest);
    } else {
      var inner := PrintFields(j, keys, ascii) + "}" + rest;
      FieldsStart(j, keys, ascii);
      assert Print(j, ascii) + rest == "{" + inner;
      ReadPrintedFields(j, keys, rest, ascii);
      ClosePairs(j.fields, Pairs(j, keys));
      ReadSomeObject(inner, Pairs(j, keys), rest);
    }
  }

  lemma EmptyFields(j: Json, ascii: bool)
    requires j.Object?
    ensures PrintFields(j, [], ascii) == ""
  {
  }

  lemma NoFields(m: map<string, Json>)
    requires SortKeys(m.Keys) == []
    ensures m == map[]
  {
    assert forall k :: k in m.Keys ==> k in SortKeys(m.Keys);
  }

  lemma ClosePairs(m: map<string, Json>, pairs: seq<(string, Json)>)
    requires |pairs| == |SortKeys(m.Keys)|
    requires forall i :: 0 <= i < |pairs| ==> pairs[i].0 == SortKeys(m.Keys)[i] && pairs[i].0 in m && pairs[i].1 == m[pairs[i].0]
    ensures Close(pairs) == Ok(m)
  {
    var keys := SortKeys(m.Keys);
    forall a, b | 0 <= a < b < |pairs| ensures pairs[a].0 != pairs[b].0 {
      assert Less(keys[a], keys[b]);
      LessTotal(keys[a], keys[b]);
    }
    CloseAccepts(pairs);
    HoldsAll(m, pairs);
    SameFields(m, Close(pairs).value, pairs);
  }

  lemma HoldsAll(m: map<string, Json>, pairs: seq<(string, Json)>)
    requires |pairs| == |SortKeys(m.Keys)|
    requires forall i :: 0 <= i < |pairs| ==> pairs[i].0 == SortKeys(m.Keys)[i] && pairs[i].0 in m && pairs[i].1 == m[pairs[i].0]
    ensures HoldsPairs(m, pairs)
  {
    var keys := SortKeys(m.Keys);
    forall k | k in m ensures exists i :: 0 <= i < |pairs| && pairs[i].0 == k {
      assert k in keys;
      var i :| 0 <= i < |keys| && keys[i] == k;
      assert pairs[i].0 == k;
    }
  }

  lemma SameFields(m: map<string, Json>, n: map<string, Json>, pairs: seq<(string, Json)>)
    requires HoldsPairs(m, pairs) && HoldsPairs(n, pairs)
    ensures m == n
  {
    forall k | k in m ensures k in n && n[k] == m[k] {
      var i :| 0 <= i < |pairs| && pairs[i].0 == k;
    }
    forall k | k in n ensures k in m {
      var i :| 0 <= i < |pairs| && pairs[i].0 == k;
    }
  }

  // ---------- ASCII ----------

  predicate Visible(s: string) { forall i :: 0 <= i < |s| ==> 0x20 <= s[i] as int < 0x7F }

  lemma VisibleEscape(c: char)
    ensures Visible(EscapeChar(c, true))
  {
    hide Hex4;
    var n := c as int;
    if |EscapeChar(c, true)| > 2 {
      if n < 0x1_0000 {
        VisibleHex(n);
      } else {
        VisibleHex(0xD800 + (n - 0x1_0000) / 0x400);
        VisibleHex(0xDC00 + (n - 0x1_0000) % 0x400);
      }
    }
  }

  lemma VisibleHex(n: nat)
    requires n < 0x1_0000
    ensures Visible(Hex4(n))
  {
  }

  lemma {:induction false} VisibleText(t: string)
    ensures Visible(EscapeText(t, true))
  {
    if t != "" {
      VisibleEscape(t[0]);
      VisibleText(t[1..]);
    }
  }

  lemma VisibleSum(a: string, b: string)
    requires Visible(a) && Visible(b)
    ensures Visible(a + b)
  {
  }

  lemma VisibleAround(left: char, inside: string, right: char)
    requires Visible(inside) && Visible([left]) && Visible([right])
    ensures Visible([left] + inside + [right])
  {
  }

  lemma VisibleDigits(n: nat)
    ensures Visible(Digits(n)) && Visible("-" + Digits(n))
  {
    assert forall i :: 0 <= i < |Digits(n)| ==> IsDigit(Digits(n)[i]);
  }

  lemma {:induction false} VisiblePrint(j: Json)
    ensures Visible(Print(j, true))
    decreases j, 1
  {
    hide EscapeText, Digits, PrintItems, PrintFields, SortKeys;
    match j
    case Null =>
    case Bool(b) =>
    case Number(n) => VisibleDigits(if n < 0 then -n else n);
    case Text(s) =>
      VisibleText(s);
      VisibleAround(QUOTE, EscapeText(s, true), QUOTE);
    case Array(items) =>
      VisibleItems(items);
      VisibleAround('[', PrintItems(items, true), ']');
    case Object(fields) =>
      var keys := SortKeys(fields.Keys);
      VisibleFields(j, keys);
      VisibleAround('{', PrintFields(j, keys, true), '}');
  }

  lemma {:induction false} VisibleItems(items: seq<Json>)
    ensures Visible(PrintItems(items, true))
    decreases items, 0
  {
    hide Print, Visible;
    if items == [] {
      assert Visible("") by { VisibleEmpty(); }
    } else {
      VisiblePrint(items[0]);
      VisibleItems(items[1..]);
      VisibleMarks();
      VisibleSum(Print(items[0], true), ",");
      VisibleSum(Print(items[0], true) + ",", PrintItems(items[1..], true));
    }
  }

  lemma VisibleEmpty()
    ensures Visible("")
  {
  }

  lemma VisibleMarks()
    ensures Visible(",") && Visible(":") && Visible([QUOTE])
  {
  }

  lemma {:induction false} VisibleFields(j: Json, keys: seq<string>)
    requires j.Object? && forall k :: k in keys ==> k in j.fields
    ensures Visible(PrintFields(j, keys, true))
    decreases j, 0, |keys|
  {
    hide Print, Visible, EscapeText;
    if keys == [] {
      VisibleEmpty();
    } else {
      var value := j.fields[keys[0]];
      var more := if |keys| == 1 then "" else "," + PrintFields(j, keys[1..], true);
      VisibleText(keys[0]);
      VisibleMarks();
      VisibleEmpty();
      VisiblePrint(value);
      VisibleFields(j, keys[1..]);
      VisibleSum(",", PrintFields(j, keys[1..], true));
      VisibleAround(QUOTE, EscapeText(keys[0], true), QUOTE);
      VisibleSum(Quote(keys[0], true), ":");
      VisibleSum(Quote(keys[0], true) + ":", Print(value, true));
      VisibleSum(Quote(keys[0], true) + ":" + Print(value, true), more);
    }
  }

  /** Canonical text is one line of visible ASCII, so its encoding to bytes never fails. */
  lemma CanonicalIsOneAsciiLine(j: Json)
    ensures Visible(Canonical(j)[..|Canonical(j)| - 1]) && Canonical(j)[|Canonical(j)| - 1] == '\n'
  {
    VisiblePrint(j);
    assert Canonical(j)[..|Canonical(j)| - 1] == Print(j, true);
  }

  // ---------- Main results ----------

  /** Reading undoes printing, at every depth and in either style. */
  lemma LoadsDump(j: Json, ascii: bool)
    ensures Loads(Dump(j, ascii)) == Ok(j)
  {
    hide Print;
    PrintStarts(j, ascii);
    SkipNothing(Print(j, ascii) + "\n");
    ReadPrinted(j, "\n", ascii);
    assert "\n"[1..] == "";
  }

  /** The canonical text of an accepted object is accepted. */
  lemma LoadsCanonical(accepts: Json -> bool, j: Json)
    ensures Loads(Canonical(j)) == Ok(j)
    ensures j.Object? && accepts(j) ==> ParseExact(accepts, Canonical(j)) == Ok(j)
  {
    hide Loads, Dump;
    LoadsDump(j, true);
    VisibleIsAscii(j);
  }

  /** Two values never share their canonical text. */
  lemma CanonicalInjective(a: Json, b: Json)
    requires Canonical(a) == Canonical(b)
    ensures a == b
  {
    hide Loads, Dump;
    LoadsDump(a, true);
    LoadsDump(b, true);
  }

  /** Exactly one text is accepted for each object that the validation accepts, and none for any other value. */
  lemma OneAcceptedText(accepts: Json -> bool, j: Json, text: string)
    ensures ParseExact(accepts, text) == Ok(j) <==> j.Object? && accepts(j) && text == Canonical(j)
  {
    hide Loads, Canonical;
    LoadsCanonical(accepts, j);
  }

  /** The same for bytes. */
  lemma OneAcceptedEncoding(accepts: Json -> bool, j: Json, content: bytes)
    ensures ByteText.IsAscii(Canonical(j))
    ensures ParseExactBytes(accepts, content) == Ok(j) <==>
            j.Object? && accepts(j) && content == ByteText.Ascii(Canonical(j))
  {
    hide Canonical, ParseExact;
    VisibleIsAscii(j);
    ByteText.DecodeAsciiOf(Canonical(j));
    if ByteText.DecodeAscii(content).Some? { OneAcceptedText(accepts, j, ByteText.DecodeAscii(content).value); }
  }

  lemma VisibleIsAscii(j: Json)
    ensures ByteText.IsAscii(Canonical(j))
  {
    hide Print;
    VisiblePrint(j);
  }

  // ---------- When the encoding fails ----------

  /** No string and no key in the value has a character outside ASCII. */
  predicate AsciiOnly(j: Json) {
    match j
    case Text(t) => ByteText.IsAscii(t)
    case Array(items) => forall i :: 0 <= i < |items| ==> AsciiOnly(items[i])
    case Object(fields) => forall k :: k in fields ==> ByteText.IsAscii(k) && AsciiOnly(fields[k])
    case _ => true
  }

  lemma AsciiSum(a: string, b: string)
    ensures ByteText.IsAscii(a + b) <==> ByteText.IsAscii(a) && ByteText.IsAscii(b)
  {
    var c := a + b;
    if ByteText.IsAscii(c) {
      assert forall i :: 0 <= i < |a| ==> a[i] == c[i];
      assert forall i :: 0 <= i < |b| ==> b[i] == c[|a| + i];
    }
  }

  lemma AsciiTail(s: string)
    requires s != ""
    ensures ByteText.IsAscii(s) <==> s[0] < 128 as char && ByteText.IsAscii(s[1..])
  {
    assert s == [s[0]] + s[1..];
    AsciiSum([s[0]], s[1..]);
  }

  lemma AsciiFrom(s: string, n: nat)
    requires n <= |s| && forall i :: 0 <= i < n ==> s[i] < 128 as char
    ensures ByteText.IsAscii(s[n..]) ==> ByteText.IsAscii(s)
  {
    assert s == s[..n] + s[n..];
    AsciiSum(s[..n], s[n..]);
  }

  // Printing without escapes shows every character that is not ASCII.

  lemma RawChar(c: char)
    ensures ByteText.IsAscii(EscapeChar(c, false)) <==> c < 128 as char
  {
    hide Hex4;
    var e := EscapeChar(c, false);
    if |e| == 1 { assert e[0] == c; }
    if |e| > 2 {
      VisibleHex(c as int);
      assert e == "\\u" + Hex4(c as int);
    }
  }

  lemma {:induction false} RawText(t: string)
    ensures ByteText.IsAscii(EscapeText(t, false)) <==> ByteText.IsAscii(t)
  {
    hide EscapeChar;
    if t != "" {
      RawChar(t[0]);
      RawText(t[1..]);
      AsciiSum(EscapeChar(t[0], false), EscapeText(t[1..], false));
      AsciiTail(t);
    }
  }

  lemma RawQuote(t: string)
    ensures ByteText.IsAscii(Quote(t, false)) <==> ByteText.IsAscii(t)
  {
    RawText(t);
    AsciiSum([QUOTE], EscapeText(t, false));
    AsciiSum([QUOTE] + EscapeText(t, false), [QUOTE]);
  }

  lemma {:induction false} RawPrint(j: Json)
    ensures ByteText.IsAscii(Print(j, false)) <==> AsciiOnly(j)
    decreases j, 1
  {
    hide EscapeText, PrintItems, PrintFields, SortKeys, Quote;
    match j
    case Null =>
    case Bool(b) =>
    case Number(n) => VisibleDigits(if n < 0 then -n else n);
    case Text(t) => RawQuote(t);
    case Array(items) =>
      RawItems(items);
      AsciiSum("[", PrintItems(items, false));
      AsciiSum("[" + PrintItems(items, false), "]");
    case Object(fields) =>
      var keys := SortKeys(fields.Keys);
      RawFields(j, keys);
      AsciiSum("{", PrintFields(j, keys, false));
      AsciiSum("{" + PrintFields(j, keys, false), "}");
      assert forall k :: k in fields.Keys <==> k in keys;
  }

  lemma {:induction false} RawItems(items: seq<Json>)
    ensures ByteText.IsAscii(PrintItems(items, false)) <==> forall i :: 0 <= i < |items| ==> AsciiOnly(items[i])
    decreases items, 0
  {
    hide Print, AsciiOnly;
    if items != [] {
      var first, more := Print(items[0], false), PrintItems(items[1..], false);
      RawPrint(items[0]);
      RawItems(items[1..]);
      AsciiSum(first, ",");
      AsciiSum(first + ",", more);
      assert forall i :: 0 < i < |items| ==> items[i] == items[1..][i - 1];
      assert forall i :: 0 <= i < |items| - 1 ==> items[1..][i] == items[i + 1];
    }
  }

  lemma {:induction false} RawFields(j: Json, keys: seq<string>)
    requires j.Object? && forall k :: k in keys ==> k in j.fields
    ensures ByteText.IsAscii(PrintFields(j, keys, false)) <==>
            forall k :: k in keys ==> ByteText.IsAscii(k) && AsciiOnly(j.fields[k])
    decreases j, 0, |keys|
  {
    hide Print, AsciiOnly, Quote;
    if keys != [] {
      var key, value := Quote(keys[0], false), Print(j.fields[keys[0]], false);
      var more := if |keys| == 1 then "" else "," + PrintFields(j, keys[1..], false);
      RawQuote(keys[0]);
      RawPrint(j.fields[keys[0]]);
      RawFields(j, keys[1..]);
      AsciiSum(key, ":");
      AsciiSum(key + ":", value);
      AsciiSum(key + ":" + value, more);
      AsciiSum(",", PrintFields(j, keys[1..], false));
      assert keys == [keys[0]] + keys[1..];
    }
  }

  // Reading finds every character that is not ASCII in a string or a key.

  lemma {:induction false} SkippedAscii(s: string)
    ensures ByteText.IsAscii(SkipSpace(s)) ==> ByteText.IsAscii(s)
  {
    if s != "" && IsSpace(s[0]) {
      SkippedAscii(s[1..]);
      AsciiTail(s);
    }
  }

  lemma ReadHexAscii(s: string)
    requires ReadHex4(s).Some? && ByteText.IsAscii(ReadHex4(s).value.rest)
    ensures ByteText.IsAscii(s)
  {
    AsciiFrom(s, 4);
  }

  lemma ReadEscapeAscii(s: string)
    requires ReadEscape(s).Some? && ByteText.IsAscii(ReadEscape(s).value.rest)
    ensures ByteText.IsAscii(s)
  {
    hide ReadHex4;
    AsciiTail(s);
    if s[0] == 'u' {
      var high := ReadHex4(s[1..]).value;
      if 0xD800 <= high.value < 0xDC00 {
        ReadHexAscii(high.rest[2..]);
        AsciiFrom(high.rest, 2);
      }
      ReadHexAscii(s[1..]);
    }
  }

  lemma {:induction false} ReadTextAscii(s: string)
    requires ReadText(s).Some? && ByteText.IsAscii(ReadText(s).value.rest) && ByteText.IsAscii(ReadText(s).value.value)
    ensures ByteText.IsAscii(s)
    decreases |s|
  {
    hide ReadEscape;
    AsciiTail(s);
    if s[0] != QUOTE {
      var first := if s[0] == BACKSLASH then ReadEscape(s[1..]) else Some(Parsed(s[0], s[1..]));
      var more := ReadText(first.value.rest).value;
      AsciiSum([first.value.value], more.value);
      ReadTextAscii(first.value.rest);
      if s[0] == BACKSLASH { ReadEscapeAscii(s[1..]); } else { assert [first.value.value][0] == s[0]; }
    }
  }

  lemma ReadNumberAscii(s: string)
    requires ReadNumber(s).Some? && ByteText.IsAscii(ReadNumber(s).value.rest)
    ensures ByteText.IsAscii(s)
  {
    hide DecimalValue, FloatFollows;
    var digits := if s[0] == '-' then s[1..] else s;
    var n := if digits[0] == '0' then 1 else DigitRun(digits);
    AsciiFrom(digits, n);
    AsciiTail(s);
  }

  lemma {:induction false} ReadValueAscii(s: string)
    requires ReadValue(s).Ok? && ByteText.IsAscii(ReadValue(s).value.rest) && AsciiOnly(ReadValue(s).value.value)
    ensures ByteText.IsAscii(s)
    decreases |s|, 0
  {
    hide ReadText, ReadItems, ReadFields, ReadNumber, Close, SkipSpace;
    AsciiTail(s);
    if s[0] == QUOTE {
      ReadTextAscii(s[1..]);
    } else if s[0] == '[' {
      var inner := SkipSpace(s[1..]);
      SkippedAscii(s[1..]);
      if inner != "" && inner[0] == ']' { AsciiTail(inner); } else { ReadItemsAscii(inner); }
    } else if s[0] == '{' {
      var inner := SkipSpace(s[1..]);
      SkippedAscii(s[1..]);
      if inner != "" && inner[0] == '}' {
        AsciiTail(inner);
      } else {
        ClosedAscii(ReadFields(inner).value.value);
        ReadFieldsAscii(inner);
      }
    } else if StartsWith(s, "null") || StartsWith(s, "true") || StartsWith(s, "false") {
      WordAscii(s);
    } else {
      ReadNumberAscii(s);
    }
  }

  lemma WordAscii(s: string)
    ensures StartsWith(s, "null") && ByteText.IsAscii(s[4..]) ==> ByteText.IsAscii(s)
    ensures StartsWith(s, "true") && ByteText.IsAscii(s[4..]) ==> ByteText.IsAscii(s)
    ensures StartsWith(s, "false") && ByteText.IsAscii(s[5..]) ==> ByteText.IsAscii(s)
  {
    if |s| >= 4 {
      assert s == s[..4] + s[4..];
      AsciiSum(s[..4], s[4..]);
    }
    if |s| >= 5 {
      assert s == s[..5] + s[5..];
      AsciiSum(s[..5], s[5..]);
    }
  }

  lemma {:induction false} ReadItemsAscii(s: string)
    requires ReadItems(s).Ok? && ByteText.IsAscii(ReadItems(s).value.rest)
    requires forall i :: 0 <= i < |ReadItems(s).value.value| ==> AsciiOnly(ReadItems(s).value.value[i])
    ensures ByteText.IsAscii(s)
    decreases |s|, 1
  {
    hide ReadValue, SkipSpace, AsciiOnly;
    var items := ReadItems(s).value.value;
    var first := ReadValue(s).value;
    var after := SkipSpace(first.rest);
    assert items[0] == first.value;
    AsciiTail(after);
    if after[0] == ',' {
      var more := ReadItems(SkipSpace(after[1..])).value.value;
      assert forall i :: 0 <= i < |more| ==> more[i] == items[i + 1];
      ReadItemsAscii(SkipSpace(after[1..]));
      SkippedAscii(after[1..]);
    }
    SkippedAscii(first.rest);
    ReadValueAscii(s);
  }

  predicate PairAscii(p: (string, Json)) { ByteText.IsAscii(p.0) && AsciiOnly(p.1) }

  lemma ClosedAscii(pairs: seq<(string, Json)>)
    requires Close(pairs).Ok? && AsciiOnly(Object(Close(pairs).value))
    ensures forall i :: 0 <= i < |pairs| ==> PairAscii(pairs[i])
  {
    CloseAccepts(pairs);
  }

  lemma {:induction false} ReadFieldsAscii(s: string)
    requires ReadFields(s).Ok? && ByteText.IsAscii(ReadFields(s).value.rest)
    requires forall i :: 0 <= i < |ReadFields(s).value.value| ==> PairAscii(ReadFields(s).value.value[i])
    ensures ByteText.IsAscii(s)
    decreases |s|, 1
  {
    hide ReadValue, ReadText, SkipSpace, AsciiOnly;
    var pairs := ReadFields(s).value.value;
    var key := ReadText(s[1..]).value;
    var colon := SkipSpace(key.rest);
    var start := SkipSpace(colon[1..]);
    var value := ReadValue(start).value;
    var after := SkipSpace(value.rest);
    assert pairs[0] == (key.value, value.value) && PairAscii(pairs[0]);
    AsciiTail(after);
    if after[0] == ',' {
      var more := ReadFields(SkipSpace(after[1..])).value.value;
      assert forall i :: 0 <= i < |more| ==> more[i] == pairs[i + 1];
      ReadFieldsAscii(SkipSpace(after[1..]));
      SkippedAscii(after[1..]);
    }
    SkippedAscii(value.rest);
    ReadValueAscii(start);
    SkippedAscii(colon[1..]);
    AsciiTail(colon);
    SkippedAscii(key.rest);
    ReadTextAscii(s[1..]);
    AsciiTail(s);
  }

  /** A text that is not ASCII has a value that is not. */
  lemma LoadedAscii(text: string)
    requires Loads(text).Ok? && AsciiOnly(Loads(text).value)
    ensures ByteText.IsAscii(text)
  {
    hide ReadValue, SkipSpace, AsciiOnly;
    var start := SkipSpace(text);
    var p := ReadValue(start).value;
    SkippedAscii(p.rest);
    ReadValueAscii(start);
    SkippedAscii(text);
  }

  /** Given text, the encoding fails exactly for a valid report whose text is not ASCII; that report then has a string
      or a key that is not. */
  lemma EncodingFailsIff(accepts: Json -> bool, text: string)
    ensures ParseExact(accepts, text) == Err(NotAscii) <==>
            Loads(text).Ok? && Loads(text).value.Object? && accepts(Loads(text).value) && !ByteText.IsAscii(text)
    ensures ParseExact(accepts, text) == Err(NotAscii) ==> !AsciiOnly(Loads(text).value)
  {
    hide ReadValue, AsciiOnly, Canonical;
    if Loads(text).Ok? && AsciiOnly(Loads(text).value) { LoadedAscii(text); }
  }

  /** Given bytes, it never does. */
  lemma BytesNeverFail(accepts: Json -> bool, content: bytes)
    ensures ParseExactBytes(accepts, content) != Err(NotAscii)
  {
    hide Loads, Canonical;
    if ByteText.DecodeAscii(content).Some? { EncodingFailsIff(accepts, ByteText.DecodeAscii(content).value); }
  }

  /** Every report with a string or a key that is not ASCII has such a text: its own dump without escapes. */
  lemma UnescapedDump(accepts: Json -> bool, j: Json)
    requires j.Object? && accepts(j) && !AsciiOnly(j)
    ensures ParseExact(accepts, Dump(j, false)) == Err(NotAscii)
  {
    hide Loads, Print, AsciiOnly, Canonical;
    LoadsDump(j, false);
    RawPrint(j);
    AsciiSum(Print(j, false), "\n");
  }

  /** Hence some text makes the encoding fail exactly when the validation accepts some object that is not ASCII. */
  lemma EncodingCanFailIff(accepts: Json -> bool)
    ensures (exists text: string :: ParseExact(accepts, text) == Err(NotAscii)) <==>
            exists j: Json :: j.Object? && accepts(j) && !AsciiOnly(j)
  {
    hide ParseExact, AsciiOnly;
    if text: string :| ParseExact(accepts, text) == Err(NotAscii) {
      EncodingFailsIff(accepts, text);
    }
    if j: Json :| j.Object? && accepts(j) && !AsciiOnly(j) {
      UnescapedDump(accepts, j);
    }
  }

  // The shape of such a text, for an object of one field.

  predicate Unescaped(t: string) {
    forall i :: 0 <= i < |t| ==> t[i] != QUOTE && t[i] != BACKSLASH && t[i] as int >= 0x20
  }

  lemma {:induction false} RawIsItself(t: string)
    requires Unescaped(t)
    ensures EscapeText(t, false) == t
  {
    if t != "" {
      RawIsItself(t[1..]);
      assert t == [t[0]] + t[1..];
    }
  }

  function OneField(key: string, value: string): Json { Object(map[key := Text(value)]) }

  lemma OneKey(key: string)
    ensures SortKeys({key}) == [key]
  {
    var keys := SortKeys({key});
    assert |keys| == 1 && keys[0] in keys;
  }

  lemma OnePrintedField(j: Json, key: string)
    requires j.Object? && key in j.fields
    ensures PrintFields(j, [key], false) == Quote(key, false) + ":" + Print(j.fields[key], false)
  {
    hide Print, Quote;
    var printed := Quote(key, false) + ":" + Print(j.fields[key], false);
    assert printed + "" == printed;
  }

  lemma OneFieldDump(key: string, value: string)
    requires Unescaped(key) && Unescaped(value)
    ensures Dump(OneField(key, value), false) == "{\"" + key + "\":\"" + value + "\"}\n"
  {
    hide EscapeText, PrintFields, SortKeys, Unescaped;
    var j := OneField(key, value);
    RawIsItself(key);
    RawIsItself(value);
    OneKey(key);
    assert j.fields.Keys == {key};
    OnePrintedField(j, key);
    assert Print(j.fields[key], false) == [QUOTE] + value + [QUOTE];
    assert Dump(j, false) == "{" + ([QUOTE] + key + [QUOTE] + ":" + ([QUOTE] + value + [QUOTE])) + "}" + "\n";
  }

  /** The letter e with an acute accent. */
  const E_ACUTE: char := 0xE9 as char

  /** Any validation that accepts the object lets this text reach the failing encoding. */
  lemma UnescapedLetter(accepts: Json -> bool)
    requires accepts(OneField("python_version", [E_ACUTE]))
    ensures ParseExact(accepts, "{\"" + "python_version" + "\":\"" + [E_ACUTE] + "\"}\n") == Err(NotAscii)
  {
    hide ParseExact, Dump;
    var j := OneField("python_version", [E_ACUTE]);
    assert [E_ACUTE][0] == E_ACUTE;
    assert !AsciiOnly(Text([E_ACUTE]));
    assert j.fields["python_version"] == Text([E_ACUTE]);
    UnescapedDump(accepts, j);
    OneFieldDump("python_version", [E_ACUTE]);
  }
}
