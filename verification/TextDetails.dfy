/** What the shared definitions of text, bytes and paths come to, written out. */
module TextDetails {
  import opened Bytes
  import opened Wrappers
  import opened TextOrder
  import opened ByteText
  import opened PosixPath
  import Utf8

  // ---------- Order ----------

  /** Up to `k` the texts agree, and there `a` ends or has the smaller character. */
  predicate ParesAt(a: string, b: string, k: nat) {
    && k <= |a| && k < |b| && (forall i :: 0 <= i < k ==> a[i] == b[i])
    && (k == |a| || a[k] < b[k])
  }

  /** Python's order on strings: by the first character that differs, a prefix before the longer text. */
  lemma {:induction false} LessMeans(a: string, b: string)
    ensures Less(a, b) <==> exists k: nat :: ParesAt(a, b, k)
  {
    if b != [] && a != [] {
      LessMeans(a[1..], b[1..]);
      if Less(a, b) {
        if a[0] < b[0] {
          assert ParesAt(a, b, 0);
        } else {
          var k: nat :| ParesAt(a[1..], b[1..], k);
          assert ParesAt(a, b, k + 1);
        }
      }
      if k: nat :| ParesAt(a, b, k) {
        if k > 0 {
          assert a[0] == b[0];
          assert ParesAt(a[1..], b[1..], k - 1);
        }
      }
    } else if b != [] {
      assert ParesAt(a, b, 0);
    }
  }

  // ---------- UTF-8 ----------

  /** The first and last characters of each length (section 3 of RFC 3629). */
  lemma CharacterBytes()
    ensures Utf8.EncodeChar('\U{0}') == [0x00] && Utf8.EncodeChar('\U{7F}') == [0x7F]
    ensures Utf8.EncodeChar('\U{80}') == [0xC2, 0x80] && Utf8.EncodeChar('\U{7FF}') == [0xDF, 0xBF]
    ensures Utf8.EncodeChar('\U{800}') == [0xE0, 0xA0, 0x80] && Utf8.EncodeChar('\U{FFFF}') == [0xEF, 0xBF, 0xBF]
    ensures Utf8.EncodeChar('\U{10000}') == [0xF0, 0x90, 0x80, 0x80]
    ensures Utf8.EncodeChar('\U{10FFFF}') == [0xF4, 0x8F, 0xBF, 0xBF]
    ensures Utf8.EncodeChar('\U{E9}') == [0xC3, 0xA9] && Utf8.EncodeChar('\U{20AC}') == [0xE2, 0x82, 0xAC]
  {
  }

  /** In general: the bits of the character, six to each byte after the first. */
  lemma CharacterBits(c: char)
    ensures var n, b := c as int, Utf8.EncodeChar(c);
      match |b|
      case 1 => n < 0x80 && n == b[0] as int
      case 2 => 0x80 <= n < 0x800 && n == (b[0] as int - 0xC0) * 64 + (b[1] as int - 0x80)
      case 3 => 0x800 <= n < 0x1_0000 && n == (b[0] as int - 0xE0) * 4096 + (b[1] as int - 0x80) * 64 + (b[2] as int - 0x80)
      case 4 =>
        && 0x1_0000 <= n
        && n == (b[0] as int - 0xF0) * 262144 + (b[1] as int - 0x80) * 4096 + (b[2] as int - 0x80) * 64 + (b[3] as int - 0x80)
      case _ => false
    ensures forall i :: 1 <= i < |Utf8.EncodeChar(c)| ==> 0x80 <= Utf8.EncodeChar(c)[i] < 0xC0
  {
  }

  // ---------- Paths ----------

  predicate GoodPart(part: string) { part != "" && part != "." && part != ".." && '/' !in part && '\\' !in part }

  ghost predicate GoodPath(raw: string, parts: seq<string>) {
    && parts != [] && (forall i :: 0 <= i < |parts| ==> GoodPart(parts[i])) && Join(parts) == raw
    && |Utf8.Encode(raw)| <= 4096
  }

  /** `_safe_member_path` accepts "." and what joins non-empty names, other than "." and "..", without slash or
      backslash, in at most 4096 bytes. */
  lemma SafeIff(raw: string)
    ensures SafeMemberPath(raw).Some? <==> raw == "." || exists parts :: GoodPath(raw, parts)
  {
    hide SafeMemberPath;
    SafePathsAreJoins(raw);
    if parts :| JoinsTo(parts, raw) && |Utf8.Encode(raw)| <= MAX_ARCHIVE_MEMBER_NAME_BYTES {
      forall i | 0 <= i < |parts| ensures GoodPart(parts[i]) { assert ValidPart(parts[i]); }
      assert GoodPath(raw, parts);
    }
    if parts :| GoodPath(raw, parts) {
      forall i | 0 <= i < |parts| ensures ValidPart(parts[i]) { assert GoodPart(parts[i]); }
      assert JoinsTo(parts, raw);
    }
  }

  /** Joining puts one slash between the names. */
  lemma JoinMeans(a: string, b: string, rest: seq<string>)
    ensures Join([a]) == a && Join([a, b] + rest) == a + "/" + Join([b] + rest)
  {
    assert ([a, b] + rest)[1..] == [b] + rest;
  }

  // ---------- Bytes ----------

  lemma SpacesAre(b: byte)
    ensures IsSpace(b) <==> b == 9 || b == 10 || b == 11 || b == 12 || b == 13 || b == 32
  {
  }

  /** The decimal digits of a number: no leading zero, most significant first. */
  lemma {:induction false} DecimalMeans(n: nat)
    ensures n > 0 ==> Decimal(n)[0] != 48
    ensures n == 0 ==> Decimal(n) == [48]
    ensures DigitsValue(Decimal(n)) == Some(n)
  {
    DigitsOfDecimal(n);
    if n >= 10 { DecimalMeans(n / 10); }
  }

  /** The value of a run of digits is its usual one; underscores may stand between digits. */
  lemma DigitsMean(front: bytes, last: byte, underscore: bool)
    requires 48 <= last <= 57 && DigitsValue(front).Some?
    ensures DigitsValue([last]) == Some(last as nat - 48)
    ensures DigitsValue(front + (if underscore then [95, last] else [last])) ==
            Some(10 * DigitsValue(front).value + (last as nat - 48))
  {
    assert [last][..0] == [];
    LastIsDigit(front);
    if underscore {
      var b := front + [95, last];
      assert b[..|b| - 1] == front + [95] && (front + [95])[..|front|] == front;
    } else {
      var a := front + [last];
      assert a[..|a| - 1] == front;
    }
  }

  lemma LastIsDigit(digits: bytes)
    requires DigitsValue(digits).Some?
    ensures digits != [] && 48 <= digits[|digits| - 1] <= 57
  {
  }

  /** A sign may come first, and nothing else is a number. */
  lemma SignsMean(digits: bytes)
    requires digits != [] && DigitsValue(digits).Some?
    ensures ParseInt(digits) == Some(DigitsValue(digits).value)
    ensures ParseInt([43] + digits) == Some(DigitsValue(digits).value)
    ensures ParseInt([45] + digits) == Some(-(DigitsValue(digits).value as int))
  {
    assert ([43] + digits)[1..] == digits && ([45] + digits)[1..] == digits;
    FirstIsDigit(digits);
  }

  lemma {:induction false} FirstIsDigit(digits: bytes)
    requires DigitsValue(digits).Some?
    ensures digits != [] && 48 <= digits[0] <= 57
  {
    if |digits| > 1 {
      var front := digits[..|digits| - 1];
      FirstIsDigit(if front[|front| - 1] == 95 then front[..|front| - 1] else front);
    }
  }
}
