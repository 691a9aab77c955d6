/** What canonical JSON looks like: `json.dumps` with sorted keys, the separators "," and ":" and ASCII escapes. */
module CanonicalText {
  import opened TextOrder
  import opened CanonicalJson

  // ---------- Scalars ----------

  lemma ScalarTexts()
    ensures Canonical(Null) == "null\n" && Canonical(Bool(true)) == "true\n" && Canonical(Bool(false)) == "false\n"
    ensures Canonical(Number(0)) == "0\n" && Canonical(Number(7)) == "7\n" && Canonical(Number(-12)) == "-12\n"
    ensures Canonical(Number(1905)) == "1905\n"
    ensures Canonical(Array([])) == "[]\n" && Canonical(Object(map[])) == "{}\n"
  {
    NumberTexts();
    EmptyFields(Object(map[]), true);
    assert SortKeys(Object(map[]).fields.Keys) == [];
  }

  lemma NumberTexts()
    ensures PrintNumber(0) == "0" && PrintNumber(7) == "7" && PrintNumber(-12) == "-12" && PrintNumber(1905) == "1905"
  {
    assert Digits(0) == "0" && Digits(7) == "7" && Digits(1) == "1";
    assert Digits(12) == "12";
    assert Digits(19) == "19";
    assert Digits(190) == "190";
    assert Digits(1905) == "1905";
  }

  lemma HexTexts()
    ensures Hex4(0) == "0000" && Hex4(127) == "007f" && Hex4(0xE9) == "00e9" && Hex4(0x20AC) == "20ac"
    ensures Hex4(0xD83D) == "d83d" && Hex4(0xDE00) == "de00"
  {
  }

  /** The escapes: quote, backslash and five short ones; what stands for itself. */
  lemma ShortEscapes()
    ensures EscapeChar('\"', true) == "\\\"" && EscapeChar('\\', true) == "\\\\"
    ensures EscapeChar('\n', true) == "\\n" && EscapeChar('\r', true) == "\\r" && EscapeChar('\t', true) == "\\t"
    ensures EscapeChar(12 as char, true) == "\\f" && EscapeChar(8 as char, true) == "\\b"
    ensures EscapeChar('/', true) == "/" && EscapeChar(' ', true) == " " && EscapeChar('~', true) == "~"
  {
  }

  /** Four hexadecimal digits in lower case, and a pair of those above U+FFFF. */
  lemma UnicodeEscapes()
    ensures EscapeChar(0 as char, true) == "\\u" + "0000" && EscapeChar(127 as char, true) == "\\u" + "007f"
    ensures EscapeChar(0xE9 as char, true) == "\\u" + "00e9" && EscapeChar(0x20AC as char, true) == "\\u" + "20ac"
    ensures EscapeChar(0x1F600 as char, true) == "\\u" + "d83d" + "\\u" + "de00"
  {
    hide Hex4;
    HexTexts();
  }

  /** Every visible character but the quote and the backslash stands for itself. */
  lemma {:induction false} PlainTextIsItself(t: string)
    requires Visible(t) && QUOTE !in t && BACKSLASH !in t
    ensures Canonical(Text(t)) == "\"" + t + "\"\n"
    ensures EscapeText(t, true) == t
  {
    if t != "" {
      PlainTextIsItself(t[1..]);
      assert t == [t[0]] + t[1..];
    }
  }

  // ---------- Arrays and objects ----------

  lemma CanonicalIs(j: Json)
    ensures Canonical(j) == Print(j, true) + "\n"
  {
  }

  lemma PrintArray(items: seq<Json>)
    ensures Print(Array(items), true) == "[" + PrintItems(items, true) + "]"
  {
  }

  lemma LastItemText(a: Json)
    ensures PrintItems([a], true) == Print(a, true)
  {
    hide Print;
  }

  lemma MoreItemsText(a: Json, more: seq<Json>)
    requires more != []
    ensures PrintItems([a] + more, true) == Print(a, true) + "," + PrintItems(more, true)
  {
    hide Print;
    assert ([a] + more)[1..] == more;
  }

  /** The items of an array come in their order, with no space after the comma. */
  lemma ArrayText(a: Json, b: Json)
    ensures Print(Array([a]), true) == "[" + Print(a, true) + "]"
    ensures Print(Array([a, b]), true) == "[" + (Print(a, true) + "," + Print(b, true)) + "]"
  {
    hide Print, PrintItems;
    PrintArray([a]);
    PrintArray([a, b]);
    LastItemText(a);
    LastItemText(b);
    MoreItemsText(a, [b]);
    assert [a] + [b] == [a, b];
  }

  lemma TwoKeys(k1: string, k2: string)
    requires Less(k1, k2)
    ensures SortKeys({k1, k2}) == [k1, k2]
  {
    var keys := SortKeys({k1, k2});
    assert StrictlySorted([k1, k2]);
    SortedUnique(keys, [k1, k2]);
  }

  /** The members of an object come in the order of their keys, with no space after the comma or the colon. */
  lemma ObjectText(k1: string, v1: Json, k2: string, v2: Json)
    requires Less(k1, k2)
    ensures Print(Object(map[k1 := v1]), true) == "{" + (Quote(k1, true) + ":" + Print(v1, true)) + "}"
    ensures Print(Object(map[k1 := v1, k2 := v2]), true) ==
            "{" + (Quote(k1, true) + ":" + Print(v1, true) + ("," + (Quote(k2, true) + ":" + Print(v2, true)))) + "}"
  {
    hide Print, PrintFields, Quote, SortKeys;
    LessTotal(k1, k2);
    OneKey(k1);
    TwoKeys(k1, k2);
    var one, two := Object(map[k1 := v1]), Object(map[k1 := v1, k2 := v2]);
    assert one.fields.Keys == {k1} && two.fields.Keys == {k1, k2};
    PrintObject(one, true);
    PrintObject(two, true);
    LastFieldText(one, k1);
    LastFieldText(two, k2);
    assert [k1] + [k2] == [k1, k2];
    MoreFieldsText(two, k1, [k2]);
  }

  lemma LastFieldText(j: Json, key: string)
    requires j.Object? && key in j.fields
    ensures PrintFields(j, [key], true) == Quote(key, true) + ":" + Print(j.fields[key], true)
  {
    hide Print, Quote;
    var printed := Quote(key, true) + ":" + Print(j.fields[key], true);
    assert printed + "" == printed;
  }

  lemma MoreFieldsText(j: Json, key: string, more: seq<string>)
    requires j.Object? && key in j.fields && more != [] && forall k :: k in more ==> k in j.fields
    ensures PrintFields(j, [key] + more, true) ==
            Quote(key, true) + ":" + Print(j.fields[key], true) + ("," + PrintFields(j, more, true))
  {
    hide Print, Quote;
    assert ([key] + more)[1..] == more;
  }

  /** Two small texts in full. */
  lemma SmallTexts()
    ensures Canonical(Object(map["a" := Number(1)])) == "{\"a\":1}\n"
    ensures Canonical(Object(map["b" := Array([Null, Text("x")]), "a" := Number(1)])) == "{\"a\":1,\"b\":[null,\"x\"]}\n"
  {
    hide Canonical, Print, SortKeys, Quote;
    var one := Object(map["a" := Number(1)]);
    var list := Array([Null, Text("x")]);
    var two := Object(map["a" := Number(1), "b" := list]);
    assert map["b" := list, "a" := Number(1)] == two.fields;
    LessLetters();
    QuotedLetter('a');
    QuotedLetter('b');
    OneDigit();
    ListText();
    ObjectText("a", Number(1), "b", list);
    CanonicalIs(one);
    CanonicalIs(two);
  }

  lemma QuotedLetter(c: char)
    requires 'a' <= c <= 'z'
    ensures Quote([c], true) == "\"" + [c] + "\""
  {
    PlainTextIsItself([c]);
  }

  lemma OneDigit()
    ensures Print(Number(1), true) == "1"
  {
  }

  lemma LessLetters()
    ensures Less("a", "b")
  {
  }

  lemma ListText()
    ensures Print(Array([Null, Text("x")]), true) == "[null,\"x\"]"
  {
    hide PrintItems, Quote;
    ArrayText(Null, Text("x"));
    QuotedLetter('x');
  }

  // ---------- No spaces but those in strings ----------

  predicate SpaceFree(s: string) { ' ' !in s }

  predicate NoSpaceInside(j: Json) {
    match j
    case Text(t) => SpaceFree(t)
    case Array(items) => forall i :: 0 <= i < |items| ==> NoSpaceInside(items[i])
    case Object(fields) => forall k :: k in fields ==> SpaceFree(k) && NoSpaceInside(fields[k])
    case _ => true
  }

  lemma CharSpace(c: char)
    requires c != ' '
    ensures SpaceFree(EscapeChar(c, true))
  {
    hide Hex4;
    var n := c as int;
    if |EscapeChar(c, true)| > 2 {
      if n < 0x1_0000 {
        HexSpace(n);
      } else {
        HexSpace(0xD800 + (n - 0x1_0000) / 0x400);
        HexSpace(0xDC00 + (n - 0x1_0000) % 0x400);
      }
    }
  }

  lemma HexSpace(n: nat)
    requires n < 0x1_0000
    ensures SpaceFree(Hex4(n))
  {
  }

  lemma {:induction false} TextSpace(t: string)
    requires SpaceFree(t)
    ensures SpaceFree(EscapeText(t, true))
  {
    hide EscapeChar;
    if t != "" {
      CharSpace(t[0]);
      TextSpace(t[1..]);
    }
  }

  lemma {:induction false} PrintSpace(j: Json)
    requires NoSpaceInside(j)
    ensures SpaceFree(Print(j, true))
    decreases j, 1
  {
    hide EscapeText, Digits, PrintItems, PrintFields, SortKeys;
    match j
    case Null =>
    case Bool(b) =>
    case Number(n) => DigitSpace(if n < 0 then -n else n);
    case Text(t) => TextSpace(t);
    case Array(items) => ItemsSpace(items);
    case Object(fields) => FieldsSpace(j, SortKeys(fields.Keys));
  }

  lemma DigitSpace(n: nat)
    ensures SpaceFree(Digits(n))
  {
    assert forall i :: 0 <= i < |Digits(n)| ==> IsDigit(Digits(n)[i]);
  }

  lemma {:induction false} ItemsSpace(items: seq<Json>)
    requires forall i :: 0 <= i < |items| ==> NoSpaceInside(items[i])
    ensures SpaceFree(PrintItems(items, true))
    decreases items, 0
  {
    hide Print, NoSpaceInside;
    if items != [] {
      PrintSpace(items[0]);
      assert forall i :: 0 <= i < |items| - 1 ==> items[1..][i] == items[i + 1];
      ItemsSpace(items[1..]);
    }
  }

  lemma {:induction false} FieldsSpace(j: Json, keys: seq<string>)
    requires j.Object? && forall k :: k in keys ==> k in j.fields && SpaceFree(k) && NoSpaceInside(j.fields[k])
    ensures SpaceFree(PrintFields(j, keys, true))
    decreases j, 0, |keys|
  {
    hide Print, NoSpaceInside, EscapeText;
    if keys != [] {
      TextSpace(keys[0]);
      PrintSpace(j.fields[keys[0]]);
      FieldsSpace(j, keys[1..]);
    }
  }

  /** The separators bring no space: a canonical text has one only where a string or a key has. */
  lemma NoSpaceOutsideStrings(j: Json)
    requires NoSpaceInside(j)
    ensures ' ' !in Canonical(j)
  {
    hide Print;
    PrintSpace(j);
  }
}
