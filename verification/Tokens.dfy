/**
 Page tokens: an offset as decimal text (Go's strconv) in base64 (section 4 of RFC 4648, as Go's
 StdEncoding reads and writes it). Bytes are characters below 256.
 */
module Tokens {
  import opened Wrappers

  const MIN_INT := -0x8000_0000_0000_0000
  const MAX_INT := 0x7FFF_FFFF_FFFF_FFFF

  // ----- Decimal text

  predicate IsDigit(c: char) {
    '0' <= c <= '9'
  }

  predicate AllDigits(s: string) {
    forall i | 0 <= i < |s| :: IsDigit(s[i])
  }

  function Digits(n: nat): string {
    (if n < 10 then "" else Digits(n / 10)) + [('0' as int + n % 10) as char]
  }

  function Itoa(n: int): string {
    if n < 0 then "-" + Digits(-n) else Digits(n)
  }

  function DigitsValue(s: string): nat
    requires AllDigits(s)
  {
    if s == "" then 0
    else
      assert IsDigit(s[|s| - 1]);
      DigitsValue(s[..|s| - 1]) * 10 + (s[|s| - 1] as int - '0' as int)
  }

  /** A 64-bit number, if it is one. */
  function InRange(n: int): Option<int> {
    if MIN_INT <= n <= MAX_INT then Some(n) else None
  }

  /** An optional sign, then digits, within the range of a 64-bit integer. */
  function Atoi(s: string): Option<int> {
    var digits := if s != "" && (s[0] == '-' || s[0] == '+') then s[1..] else s;
    if digits == "" || !AllDigits(digits) then None
    else
      InRange(if s[0] == '-' then 0 - DigitsValue(digits) else DigitsValue(digits))
  }

  lemma {:induction false} DigitsInverse(n: nat)
    ensures Digits(n) != "" && AllDigits(Digits(n))
    ensures DigitsValue(Digits(n)) == n
  {
    if n >= 10 {
      DigitsInverse(n / 10);
    }
    var s := Digits(n);
    assert s[|s| - 1] == ('0' as int + n % 10) as char;
    assert s[..|s| - 1] == if n < 10 then "" else Digits(n / 10);
  }

  lemma AtoiOfDigits(digits: string)
    requires digits != "" && AllDigits(digits)
    ensures Atoi(digits) == InRange(DigitsValue(digits))
  {
    assert IsDigit(digits[0]);
  }

  lemma AtoiOfNegative(s: string, digits: string)
    requires digits != "" && AllDigits(digits) && s == "-" + digits
    ensures Atoi(s) == InRange(0 - DigitsValue(digits))
  {
    assert s[0] == '-' && s[1..] == digits;
  }

  /** A number's text is its digits, behind a minus sign if it is negative. */
  lemma AtoiOfText(n: int, digits: string, text: string)
    requires digits != "" && AllDigits(digits) && DigitsValue(digits) == (if n < 0 then -n else n)
    requires text == if n < 0 then "-" + digits else digits
    ensures Atoi(text) == InRange(n)
  {
    if n < 0 {
      AtoiOfNegative(text, digits);
    } else {
      AtoiOfDigits(text);
    }
  }

  /** Exactly the 64-bit integers are read back from their decimal text. */
  lemma AtoiOfItoa(n: int)
    ensures Atoi(Itoa(n)) == if -0x8000_0000_0000_0000 <= n <= 0x7FFF_FFFF_FFFF_FFFF then Some(n) else None
  {
    var m: nat := if n < 0 then -n else n;
    DigitsInverse(m);
    AtoiOfText(n, Digits(m), Itoa(n));
  }

  /** A plus sign and leading zeros change nothing. */
  lemma {:induction false} SameNumber(digits: string, zeros: nat)
    requires digits != "" && AllDigits(digits)
    ensures Atoi("+" + digits) == Atoi(digits)
    ensures var padded := seq(zeros, _ => '0') + digits;
      Atoi(padded) == Atoi(digits) && Atoi("-" + padded) == Atoi("-" + digits)
  {
    var padded := seq(zeros, _ => '0') + digits;
    AtoiOfDigits(digits);
    AtoiOfDigits(padded);
    AtoiOfNegative("-" + digits, digits);
    AtoiOfNegative("-" + padded, padded);
    ZerosInFront(digits, zeros);
    assert ("+" + digits)[1..] == digits;
  }

  lemma {:induction false} ZerosInFront(digits: string, zeros: nat)
    requires AllDigits(digits)
    ensures DigitsValue(seq(zeros, _ => '0') + digits) == DigitsValue(digits)
  {
    var padded := seq(zeros, _ => '0') + digits;
    if digits != "" {
      ZerosInFront(digits[..|digits| - 1], zeros);
      assert padded[..|padded| - 1] == seq(zeros, _ => '0') + digits[..|digits| - 1];
    } else if zeros > 0 {
      ZerosInFront(digits, zeros - 1);
      assert padded[..zeros - 1] == seq(zeros - 1, _ => '0') + digits;
    }
  }

  // ----- Base64

  predicate IsByte(c: char) {
    c as int < 256
  }

  predicate AllBytes(s: string) {
    forall i | 0 <= i < |s| :: IsByte(s[i])
  }

  type Bytes = s: string | AllBytes(s) witness ""

  function Sextet(v: int): char
    requires 0 <= v < 64
  {
    if v < 26 then ('A' as int + v) as char
    else if v < 52 then ('a' as int + v - 26) as char
    else if v < 62 then ('0' as int + v - 52) as char
    else if v == 62 then '+' else '/'
  }

  /** The value of an alphabet character, or -1. */
  function SextetValue(c: char): int
    ensures -1 <= SextetValue(c) < 64
  {
    if 'A' <= c <= 'Z' then c as int - 'A' as int
    else if 'a' <= c <= 'z' then c as int - 'a' as int + 26
    else if '0' <= c <= '9' then c as int - '0' as int + 52
    else if c == '+' then 62
    else if c == '/' then 63
    else -1
  }

  type Byte = c: char | IsByte(c) witness 'a'

  /** One, two and three bytes as four characters. */
  function Group1(c0: Byte): string {
    var b0 := c0 as int;
    [Sextet(b0 / 4), Sextet(b0 % 4 * 16), '=', '=']
  }

  function Group2(c0: Byte, c1: Byte): string {
    var b0, b1 := c0 as int, c1 as int;
    [Sextet(b0 / 4), Sextet(b0 % 4 * 16 + b1 / 16), Sextet(b1 % 16 * 4), '=']
  }

  function Group3(c0: Byte, c1: Byte, c2: Byte): string {
    var b0, b1, b2 := c0 as int, c1 as int, c2 as int;
    [Sextet(b0 / 4), Sextet(b0 % 4 * 16 + b1 / 16), Sextet(b1 % 16 * 4 + b2 / 64), Sextet(b2 % 64)]
  }

  function Encode(bytes: Bytes): string {
    if |bytes| == 0 then ""
    else if |bytes| == 1 then Group1(bytes[0])
    else if |bytes| == 2 then Group2(bytes[0], bytes[1])
    else Group3(bytes[0], bytes[1], bytes[2]) + Encode(bytes[3..])
  }

  function WithoutNewlines(s: string): string {
    if s == "" then ""
    else (if s[0] == '\r' || s[0] == '\n' then "" else [s[0]]) + WithoutNewlines(s[1..])
  }

  /** Newlines are skipped, padding is required, and the spare bits of the last group are not checked. */
  function Decode(s: string): Option<Bytes> {
    DecodeGroups(WithoutNewlines(s))
  }

  function DecodeGroups(s: string): Option<Bytes> {
    if s == "" then Some("")
    else if |s| < 4 then None
    else
      var v0, v1, v2, v3 := SextetValue(s[0]), SextetValue(s[1]), SextetValue(s[2]), SextetValue(s[3]);
      if v0 < 0 || v1 < 0 then None
      else
        var first := [(v0 * 4 + v1 / 16) as char];
        if s[3] == '=' then
          if |s| != 4 then None
          else if s[2] == '=' then Some(first)
          else if v2 < 0 then None
          else Some(first + [(v1 % 16 * 16 + v2 / 4) as char])
        else if v2 < 0 || v3 < 0 then None
        else match DecodeGroups(s[4..])
          case None => None
          case Some(rest) => Some(first + [(v1 % 16 * 16 + v2 / 4) as char, (v2 % 4 * 64 + v3) as char] + rest)
  }

  lemma SextetInverse(v: int)
    requires 0 <= v < 64
    ensures SextetValue(Sextet(v)) == v && Sextet(v) !in {'=', '\r', '\n'}
  {
  }

  lemma {:induction false} EncodeHasNoNewlines(bytes: Bytes)
    ensures forall c | c in Encode(bytes) :: c != '\r' && c != '\n'
    decreases |bytes|
  {
    if |bytes| >= 3 {
      EncodeHasNoNewlines(bytes[3..]);
    }
  }

  lemma {:induction false} NothingToSkip(s: string)
    requires forall c | c in s :: c != '\r' && c != '\n'
    ensures WithoutNewlines(s) == s
  {
    if s != "" {
      assert s[0] in s && forall c | c in s[1..] :: c in s;
      NothingToSkip(s[1..]);
    }
  }

  lemma SextetsOfBytes(b0: int, b1: int, b2: int)
    requires 0 <= b0 < 256 && 0 <= b1 < 256 && 0 <= b2 < 256
    ensures var v0, v1, v2, v3 := b0 / 4, b0 % 4 * 16 + b1 / 16, b1 % 16 * 4 + b2 / 64, b2 % 64;
      && v0 < 64 && v1 < 64 && v2 < 64
      && v0 * 4 + v1 / 16 == b0 && v1 % 16 * 16 + v2 / 4 == b1 && v2 % 4 * 64 + v3 == b2
  {
  }

  /** Four characters with these values hold three bytes. */
  lemma {:induction false} DecodeThree(s: string, v0: nat, v1: nat, v2: nat, v3: nat, rest: Bytes)
    requires |s| >= 4 && s[3] != '=' && DecodeGroups(s[4..]) == Some(rest)
    requires SextetValue(s[0]) == v0 && SextetValue(s[1]) == v1 && SextetValue(s[2]) == v2 && SextetValue(s[3]) == v3
    ensures DecodeGroups(s)
         == Some([(v0 * 4 + v1 / 16) as char, (v1 % 16 * 16 + v2 / 4) as char, (v2 % 4 * 64 + v3) as char] + rest)
  {
    var c0, c1, c2 := (v0 * 4 + v1 / 16) as char, (v1 % 16 * 16 + v2 / 4) as char, (v2 % 4 * 64 + v3) as char;
    assert [c0] + [c1, c2] + rest == [c0, c1, c2] + rest;
  }

  lemma {:induction false} DecodeTwo(s: string, v0: nat, v1: nat, v2: nat)
    requires |s| == 4 && s[2] != '=' && s[3] == '='
    requires SextetValue(s[0]) == v0 && SextetValue(s[1]) == v1 && SextetValue(s[2]) == v2
    ensures DecodeGroups(s) == Some([(v0 * 4 + v1 / 16) as char, (v1 % 16 * 16 + v2 / 4) as char])
  {
    var c0, c1 := (v0 * 4 + v1 / 16) as char, (v1 % 16 * 16 + v2 / 4) as char;
    assert [c0] + [c1] == [c0, c1];
  }

  lemma {:induction false} DecodeOne(s: string, v0: nat, v1: nat)
    requires |s| == 4 && s[2] == '=' && s[3] == '='
    requires SextetValue(s[0]) == v0 && SextetValue(s[1]) == v1
    ensures DecodeGroups(s) == Some([(v0 * 4 + v1 / 16) as char])
  {
  }

  lemma {:induction false} FullGroup(s: string, rest: Bytes, c0: Byte, c1: Byte, c2: Byte)
    requires DecodeGroups(s) == Some(rest)
    ensures DecodeGroups(Group3(c0, c1, c2) + s) == Some([c0, c1, c2] + rest)
  {
    var b0, b1, b2 := c0 as int, c1 as int, c2 as int;
    var v0, v1, v2, v3 := b0 / 4, b0 % 4 * 16 + b1 / 16, b1 % 16 * 4 + b2 / 64, b2 % 64;
    SextetsOfBytes(b0, b1, b2);
    SextetInverse(v0);
    SextetInverse(v1);
    SextetInverse(v2);
    SextetInverse(v3);
    var all := Group3(c0, c1, c2) + s;
    assert all[4..] == s;
    DecodeThree(all, v0, v1, v2, v3, rest);
  }

  lemma {:induction false} TwoByteGroup(c0: Byte, c1: Byte)
    ensures DecodeGroups(Group2(c0, c1)) == Some([c0, c1])
  {
    var b0, b1 := c0 as int, c1 as int;
    var v0, v1, v2 := b0 / 4, b0 % 4 * 16 + b1 / 16, b1 % 16 * 4;
    SextetsOfBytes(b0, b1, 0);
    SextetInverse(v0);
    SextetInverse(v1);
    SextetInverse(v2);
    DecodeTwo(Group2(c0, c1), v0, v1, v2);
  }

  lemma {:induction false} OneByteGroup(c0: Byte)
    ensures DecodeGroups(Group1(c0)) == Some([c0])
  {
    var b0 := c0 as int;
    var v0, v1 := b0 / 4, b0 % 4 * 16;
    SextetsOfBytes(b0, 0, 0);
    SextetInverse(v0);
    SextetInverse(v1);
    DecodeOne(Group1(c0), v0, v1);
  }

  lemma {:induction false} GroupsInverse(bytes: Bytes)
    ensures DecodeGroups(Encode(bytes)) == Some(bytes)
    decreases |bytes|
  {
    if |bytes| >= 3 {
      GroupsInverse(bytes[3..]);
      FirstGroupInverse(bytes, bytes[0], bytes[1], bytes[2], bytes[3..]);
    } else if bytes != "" {
      LastGroupInverse(bytes);
    }
  }

  lemma {:induction false} FirstGroupInverse(bytes: Bytes, c0: Byte, c1: Byte, c2: Byte, rest: Bytes)
    requires |bytes| >= 3 && bytes[0] == c0 && bytes[1] == c1 && bytes[2] == c2 && bytes[3..] == rest
    requires DecodeGroups(Encode(rest)) == Some(rest)
    ensures DecodeGroups(Encode(bytes)) == Some(bytes)
  {
    FullGroup(Encode(rest), rest, c0, c1, c2);
    assert bytes == [c0, c1, c2] + rest;
  }

  lemma {:induction false} LastGroupInverse(bytes: Bytes)
    requires 1 <= |bytes| <= 2
    ensures DecodeGroups(Encode(bytes)) == Some(bytes)
  {
    var c0, c1 := bytes[0], bytes[|bytes| - 1];
    if |bytes| == 1 {
      OneByteGroup(c0);
      assert bytes == [c0];
    } else {
      TwoByteGroup(c0, c1);
      assert bytes == [c0, c1];
    }
  }

  /** Every byte string is read back. */
  lemma DecodeOfEncode(bytes: Bytes)
    ensures Decode(Encode(bytes)) == Some(bytes)
  {
    EncodeHasNoNewlines(bytes);
    NothingToSkip(Encode(bytes));
    GroupsInverse(bytes);
  }

  /** The alphabet is the table of RFC 4648, section 4: capitals, small letters, digits, and two signs. */
  lemma Alphabet(v: int)
    requires 0 <= v < 63
    ensures Sextet(0) == 'A' && Sextet(26) == 'a' && Sextet(52) == '0' && Sextet(62) == '+' && Sextet(63) == '/'
    ensures v !in {25, 51, 61, 62} ==> Sextet(v + 1) as int == Sextet(v) as int + 1
  {
  }

  /** The six bits of a character; padding stands for zeros. */
  function SixBits(c: char): int {
    if c == '=' then 0 else SextetValue(c)
  }

  /** Four characters carry 24 bits, the first byte's first. */
  predicate Carries(text: string, b0: Byte, b1: Byte, b2: Byte)
    requires |text| == 4
  {
    65536 * b0 as int + 256 * b1 as int + b2 as int
    == 262144 * SixBits(text[0]) + 4096 * SixBits(text[1]) + 64 * SixBits(text[2]) + SixBits(text[3])
  }

  lemma SumOfSextets(b0: int, b1: int, b2: int)
    requires 0 <= b0 < 256 && 0 <= b1 < 256 && 0 <= b2 < 256
    ensures 65536 * b0 + 256 * b1 + b2
         == 262144 * (b0 / 4) + 4096 * (b0 % 4 * 16 + b1 / 16) + 64 * (b1 % 16 * 4 + b2 / 64) + b2 % 64
  {
  }

  lemma SixBitsOfSextet(v: int)
    requires 0 <= v < 64
    ensures SixBits(Sextet(v)) == v && Sextet(v) != '='
  {
  }

  lemma ThreeCarry(b0: Byte, b1: Byte, b2: Byte)
    ensures var group := Group3(b0, b1, b2); Carries(group, b0, b1, b2) && group[2] != '=' && group[3] != '='
  {
    var n0, n1, n2 := b0 as int, b1 as int, b2 as int;
    SextetsOfBytes(n0, n1, n2);
    SumOfSextets(n0, n1, n2);
    SixBitsOfSextet(n0 / 4);
    SixBitsOfSextet(n0 % 4 * 16 + n1 / 16);
    SixBitsOfSextet(n1 % 16 * 4 + n2 / 64);
    SixBitsOfSextet(n2 % 64);
  }

  lemma TwoCarry(b0: Byte, b1: Byte)
    ensures var group := Group2(b0, b1); Carries(group, b0, b1, '\0') && group[2] != '=' && group[3] == '='
  {
    var n0, n1 := b0 as int, b1 as int;
    SextetsOfBytes(n0, n1, 0);
    SumOfSextets(n0, n1, 0);
    SixBitsOfSextet(n0 / 4);
    SixBitsOfSextet(n0 % 4 * 16 + n1 / 16);
    SixBitsOfSextet(n1 % 16 * 4);
  }

  lemma OneCarries(b0: Byte)
    ensures var group := Group1(b0); Carries(group, b0, '\0', '\0') && group[2] == '=' && group[3] == '='
  {
    var n0 := b0 as int;
    SextetsOfBytes(n0, 0, 0);
    SumOfSextets(n0, 0, 0);
    SixBitsOfSextet(n0 / 4);
    SixBitsOfSextet(n0 % 4 * 16);
  }

  /** The byte at an index, or zero behind the end. */
  function ByteAt(bytes: Bytes, i: nat): Byte {
    if i < |bytes| then
      assert IsByte(bytes[i]);
      bytes[i]
    else '\0'
  }

  /** Group `k` of the text carries the bytes from `3 * k` on, and pads those that are missing. */
  predicate GroupCarries(bytes: Bytes, k: nat, text: string) {
    && 4 * k + 4 <= |text|
    && Carries(text[4 * k..4 * k + 4], ByteAt(bytes, 3 * k), ByteAt(bytes, 3 * k + 1), ByteAt(bytes, 3 * k + 2))
    && (text[4 * k + 2] == '=' <==> |bytes| == 3 * k + 1)
    && (text[4 * k + 3] == '=' <==> |bytes| <= 3 * k + 2)
  }

  /** Every group of the text carries its own bytes. */
  lemma {:induction false} EncodedBits(bytes: Bytes, k: nat)
    requires 3 * k < |bytes|
    ensures GroupCarries(bytes, k, Encode(bytes))
    decreases k
  {
    if k == 0 {
      FirstGroup(bytes);
    } else {
      EncodedBits(bytes[3..], k - 1);
      NextGroup(bytes, Group3(bytes[0], bytes[1], bytes[2]), Encode(bytes[3..]), k - 1);
    }
  }

  /** And there are four characters for each three bytes begun. */
  lemma {:induction false} EncodedLength(bytes: Bytes)
    ensures |Encode(bytes)| == (|bytes| + 2) / 3 * 4
    decreases |bytes|
  {
    if |bytes| >= 3 {
      EncodedLength(bytes[3..]);
    }
  }

  lemma NextGroup(bytes: Bytes, group: string, text: string, k: nat)
    requires |bytes| >= 3 && |group| == 4 && GroupCarries(bytes[3..], k, text)
    ensures GroupCarries(bytes, k + 1, group + text)
  {
    var n := k + 1;
    assert (group + text)[4 * n..4 * n + 4] == text[4 * k..4 * k + 4];
    assert ByteAt(bytes, 3 * n) == ByteAt(bytes[3..], 3 * k);
    assert ByteAt(bytes, 3 * n + 1) == ByteAt(bytes[3..], 3 * k + 1);
    assert ByteAt(bytes, 3 * n + 2) == ByteAt(bytes[3..], 3 * k + 2);
  }

  lemma {:induction false} FirstGroup(bytes: Bytes)
    requires bytes != ""
    ensures GroupCarries(bytes, 0, Encode(bytes))
  {
    var group := Encode(bytes)[..4];
    if |bytes| == 1 {
      OneCarries(bytes[0]);
      assert group == Group1(bytes[0]);
    } else if |bytes| == 2 {
      TwoCarry(bytes[0], bytes[1]);
      assert group == Group2(bytes[0], bytes[1]);
    } else {
      ThreeCarry(bytes[0], bytes[1], bytes[2]);
      assert group == Group3(bytes[0], bytes[1], bytes[2]);
    }
  }

  /** Line ends within the text are skipped. */
  lemma {:induction false} LineEndsSkipped(a: string, b: string)
    ensures Decode(a + "\n" + b) == Decode(a + b) && Decode(a + "\r" + b) == Decode(a + b)
  {
    SkippedWithin(a, "\n", b);
    SkippedWithin(a, "\r", b);
  }

  lemma {:induction false} SkippedWithin(a: string, end: string, b: string)
    requires end in ["\n", "\r"]
    ensures WithoutNewlines(a + end + b) == WithoutNewlines(a + b)
  {
    if a == "" {
      assert end + b == a + end + b && a + b == b && (end + b)[1..] == b;
      assert WithoutNewlines(end + b) == WithoutNewlines(b);
    } else {
      SkippedWithin(a[1..], end, b);
      assert (a + end + b)[1..] == a[1..] + end + b && (a + b)[1..] == a[1..] + b;
    }
  }

  // ----- Page tokens

  lemma DigitsAreBytes(n: int)
    ensures AllBytes(Itoa(n))
  {
    var digits := Digits(if n < 0 then -n else n);
    DigitsInverse(if n < 0 then -n else n);
    assert forall i | 0 <= i < |digits| :: IsDigit(digits[i]);
  }

  function TokenOf(offset: int): (token: string)
  {
    DigitsAreBytes(offset);
    Encode(Itoa(offset))
  }

  /** A missing, empty or unreadable token means offset 0. */
  function OffsetOf(token: Option<string>): int {
    if token.None? || token.value == "" then 0
    else match Decode(token.value)
      case None => 0
      case Some(text) => match Atoi(text) case None => 0 case Some(n) => n
  }

  /** The text at an index is neither a digit nor a sign in front; or there are no digits. */
  predicate NotANumber(s: string, i: nat) {
    s in ["", "+", "-"] || (i < |s| && !IsDigit(s[i]) && (i == 0 ==> s[0] != '+' && s[0] != '-'))
  }

  lemma AtoiRejects(s: string, i: nat)
    requires NotANumber(s, i)
    ensures Atoi(s) == None
  {
    if s !in ["", "+", "-"] {
      var digits := if s[0] == '-' || s[0] == '+' then s[1..] else s;
      var k := if s[0] == '-' || s[0] == '+' then i - 1 else i;
      assert !IsDigit(digits[k]);
    }
  }

  /** The text has an incomplete group, or a character outside the alphabet at an index. */
  predicate NotBase64(s: string, i: nat) {
    |s| % 4 != 0 || (i < |s| && s[i] != '=' && SextetValue(s[i]) < 0)
  }

  lemma {:induction false} GroupsReject(s: string, i: nat)
    requires NotBase64(s, i)
    ensures DecodeGroups(s) == None
  {
    if |s| >= 4 && s[3] != '=' && (|s| % 4 != 0 || i >= 4) {
      GroupsReject(s[4..], if i < 4 then 0 else i - 4);
    }
  }

  /** A token that is missing, empty, not base64, or not a number in base64 starts over. */
  lemma UnreadableStartsOver(token: string, text: Bytes, i: nat)
    ensures OffsetOf(None) == 0 && OffsetOf(Some("")) == 0
    ensures NotBase64(WithoutNewlines(token), i) ==> OffsetOf(Some(token)) == 0
    ensures NotANumber(text, i) ==> OffsetOf(Some(Encode(text))) == 0
  {
    if NotBase64(WithoutNewlines(token), i) {
      GroupsReject(WithoutNewlines(token), i);
    }
    if NotANumber(text, i) {
      DecodeOfEncode(text);
      AtoiRejects(text, i);
    }
  }

  /** How offsets are written into tokens and read from them. */
  datatype Codec = Codec(write: int -> string, read: Option<string> -> int)

  function PageTokens(): Codec {
    Codec(TokenOf, OffsetOf)
  }

  /** Tokens of positive offsets up to `n` are not empty and are read back. */
  ghost predicate RoundTrips(codec: Codec, n: int) {
    forall offset {:trigger codec.write(offset)} | 0 < offset <= n ::
      codec.write(offset) != "" && codec.read(Some(codec.write(offset))) == offset
  }

  lemma PageTokensRoundTrip(n: int)
    requires n <= MAX_INT
    ensures RoundTrips(PageTokens(), n)
  {
    forall offset | 0 < offset <= n
      ensures TokenOf(offset) != "" && OffsetOf(Some(TokenOf(offset))) == offset
    {
      TokenRoundTrip(offset);
    }
  }

  /** An emitted token is not empty and is read back as its offset. */
  lemma TokenRoundTrip(offset: int)
    requires MIN_INT <= offset <= MAX_INT
    ensures TokenOf(offset) != "" && OffsetOf(Some(TokenOf(offset))) == offset
  {
    DigitsAreBytes(offset);
    DigitsInverse(if offset < 0 then -offset else offset);
    var text: Bytes := Itoa(offset);
    AtoiOfItoa(offset);
    TextRoundTrip(text);
    OffsetOfText(Encode(text), text, offset);
  }

  lemma OffsetOfText(token: string, text: Bytes, n: int)
    requires token != "" && Decode(token) == Some(text) && Atoi(text) == Some(n)
    ensures OffsetOf(Some(token)) == n
  {
  }

  lemma TextRoundTrip(text: Bytes)
    requires text != ""
    ensures Encode(text) != "" && Decode(Encode(text)) == Some(text)
  {
    DecodeOfEncode(text);
  }
}
