/** The operations of Python's `bytes` that the Git readers use. */
module ByteText {
  import opened Bytes
  import opened Wrappers

  const NUL: byte := 0
  const TAB: byte := 9
  const LF: byte := 10
  const SPACE: byte := 32

  predicate IsAscii(s: string) { forall i :: 0 <= i < |s| ==> s[i] < 128 as char }

  function Ascii(s: string): (b: bytes)
    requires IsAscii(s)
    ensures |b| == |s| && forall i :: 0 <= i < |s| ==> b[i] as int == s[i] as int
  {
    seq(|s|, i requires 0 <= i < |s| => (s[i] as int) as byte)
  }

  /** `raw.decode("ascii")`. */
  function DecodeAscii(b: bytes): (r: Option<string>)
    ensures r.Some? ==> IsAscii(r.value) && Ascii(r.value) == b
  {
    if forall i :: 0 <= i < |b| ==> b[i] < 128 then
      Some(seq(|b|, i requires 0 <= i < |b| => (b[i] as int) as char))
    else None
  }

  lemma DecodeAsciiOf(s: string)
    requires IsAscii(s)
    ensures DecodeAscii(Ascii(s)) == Some(s)
  {
    var b := Ascii(s);
    assert forall i :: 0 <= i < |b| ==> b[i] < 128;
    var text := DecodeAscii(b).value;
    assert |Ascii(text)| == |b|;
    forall i | 0 <= i < |s| ensures text[i] == s[i] {
      assert Ascii(text)[i] == b[i];
      assert text[i] as int == s[i] as int;
    }
    assert text == s;
  }

  // ---------- split, partition ----------

  /** `data.split(sep)` for a one-byte separator. */
  function SplitOn(data: bytes, sep: byte): (parts: seq<bytes>)
    ensures parts != []
    ensures forall i :: 0 <= i < |parts| ==> sep !in parts[i]
  {
    if data == [] then [[]]
    else
      var rest := SplitOn(data[1..], sep);
      if data[0] == sep then [[]] + rest else [[data[0]] + rest[0]] + rest[1..]
  }

  lemma {:induction false} SplitOnFirst(part: bytes, rest: bytes, sep: byte)
    requires sep !in part
    ensures SplitOn(part + [sep] + rest, sep) == [part] + SplitOn(rest, sep)
  {
    var data := part + [sep] + rest;
    if part == [] {
      assert data[1..] == rest;
    } else {
      SplitOnFirst(part[1..], rest, sep);
      assert data[1..] == part[1..] + [sep] + rest;
      assert [part[0]] + part[1..] == part;
    }
  }

  /** The length of the part before the first separator. */
  function Before(data: bytes, sep: byte): (n: nat)
    ensures n <= |data| && sep !in data[..n] && (n < |data| ==> data[n] == sep)
  {
    if data == [] || data[0] == sep then 0
    else
      var n := Before(data[1..], sep);
      assert data[..n + 1] == [data[0]] + data[1..][..n];
      n + 1
  }

  datatype Partition = Partition(head: bytes, found: bool, tail: bytes)

  /** `data.partition(sep)`. */
  function PartitionOn(data: bytes, sep: byte): Partition {
    var n := Before(data, sep);
    if n < |data| then Partition(data[..n], true, data[n + 1..]) else Partition(data, false, [])
  }

  lemma {:induction false} BeforeFirst(head: bytes, tail: bytes, sep: byte)
    requires sep !in head
    ensures Before(head + [sep] + tail, sep) == |head|
  {
    if head != [] {
      BeforeFirst(head[1..], tail, sep);
      assert (head + [sep] + tail)[1..] == head[1..] + [sep] + tail;
    }
  }

  lemma PartitionFirst(head: bytes, tail: bytes, sep: byte)
    requires sep !in head
    ensures PartitionOn(head + [sep] + tail, sep) == Partition(head, true, tail)
  {
    var data := head + [sep] + tail;
    BeforeFirst(head, tail, sep);
    assert data[..|head|] == head && data[|head| + 1..] == tail;
  }

  // ---------- whitespace-separated fields ----------

  predicate IsSpace(b: byte) { b == 32 || 9 <= b <= 13 }

  predicate IsWord(b: bytes) { b != [] && forall i :: 0 <= i < |b| ==> !IsSpace(b[i]) }

  /** `data.split()`; `word` is the word being read. */
  function FieldsFrom(word: bytes, data: bytes): seq<bytes>
    decreases |data|
  {
    if data == [] then if word == [] then [] else [word]
    else if IsSpace(data[0]) then (if word == [] then [] else [word]) + FieldsFrom([], data[1..])
    else FieldsFrom(word + [data[0]], data[1..])
  }

  function Fields(data: bytes): seq<bytes> { FieldsFrom([], data) }

  lemma {:induction false} FieldsWord(word: bytes, more: bytes, rest: bytes)
    requires forall i :: 0 <= i < |more| ==> !IsSpace(more[i])
    requires word + more != [] && (rest == [] || IsSpace(rest[0]))
    ensures FieldsFrom(word, more + rest) == [word + more] + (if rest == [] then [] else FieldsFrom([], rest[1..]))
    decreases |more|
  {
    if more == [] {
      assert more + rest == rest && word + more == word;
    } else {
      assert (more + rest)[1..] == more[1..] + rest;
      assert word + [more[0]] + more[1..] == word + more;
      FieldsWord(word + [more[0]], more[1..], rest);
    }
  }

  lemma ThreeFields(a: bytes, b: bytes, c: bytes)
    requires IsWord(a) && IsWord(b) && IsWord(c)
    ensures Fields(a + [SPACE] + b + [SPACE] + c) == [a, b, c]
  {
    var bc := b + [SPACE] + c;
    assert a + [SPACE] + b + [SPACE] + c == a + ([SPACE] + bc);
    FieldsWord([], a, [SPACE] + bc);
    assert ([SPACE] + bc)[1..] == bc && bc == b + ([SPACE] + c);
    FieldsWord([], b, [SPACE] + c);
    assert ([SPACE] + c)[1..] == c && c + [] == c;
    FieldsWord([], c, []);
    assert [] + a == a && [] + b == b && [] + c == c;
  }

  /** Every field is a word. */
  lemma {:induction false} FieldsAreWords(word: bytes, data: bytes)
    requires forall i :: 0 <= i < |word| ==> !IsSpace(word[i])
    ensures forall i :: 0 <= i < |FieldsFrom(word, data)| ==> IsWord(FieldsFrom(word, data)[i])
    ensures forall i, j :: 0 <= i < |FieldsFrom(word, data)| && 0 <= j < |FieldsFrom(word, data)[i]| ==>
              FieldsFrom(word, data)[i][j] in word + data
    decreases |data|
  {
    if data != [] {
      if IsSpace(data[0]) { FieldsAreWords([], data[1..]); }
      else { FieldsAreWords(word + [data[0]], data[1..]); }
    }
  }

  // ---------- decimal numbers ----------

  function Digit(d: nat): byte
    requires d < 10
  {
    (48 + d) as byte
  }

  function Decimal(n: nat): (b: bytes)
    ensures b != [] && forall i :: 0 <= i < |b| ==> 48 <= b[i] < 58
  {
    if n < 10 then [Digit(n)] else Decimal(n / 10) + [Digit(n % 10)]
  }

  /** The value of a run of digits with single underscores between them. */
  function DigitsValue(b: bytes): Option<nat> {
    if b == [] then None
    else
      var last := b[|b| - 1];
      var front := b[..|b| - 1];
      if !(48 <= last < 58) then None
      else if front == [] then Some(last as nat - 48)
      else
        var high := DigitsValue(if front[|front| - 1] == 95 then front[..|front| - 1] else front);
        if high.None? then None else Some(10 * high.value + (last as nat - 48))
  }

  /** `int(raw)` of a word; `None` stands for ValueError. */
  function ParseInt(b: bytes): Option<int> {
    if b == [] then None
    else
      var signed := b[0] == 43 || b[0] == 45;
      match DigitsValue(if signed then b[1..] else b)
      case None => None
      case Some(n) => Some(if b[0] == 45 then -(n as int) else n as int)
  }

  lemma {:induction false} DigitsOfDecimal(n: nat)
    ensures DigitsValue(Decimal(n)) == Some(n)
  {
    if n >= 10 {
      DigitsOfDecimal(n / 10);
      var b := Decimal(n);
      assert b[..|b| - 1] == Decimal(n / 10);
    }
  }

  lemma ParseDecimal(n: nat)
    ensures ParseInt(Decimal(n)) == Some(n)
    ensures IsWord(Decimal(n)) && LF !in Decimal(n)
  {
    DigitsOfDecimal(n);
  }
}
