/** Byte ranges of a response: ParseRange, and the dispatcher that cuts a body down to the
    range asked for (section 14 of RFC 9110, single ranges). */
module Ranges {
  import opened Buffers
  import opened Paths

  // ------------------------------------------------- decimal numbers

  const TWO_TO_THE_63 := 0x8000_0000_0000_0000

  type Int64 = x: int | -TWO_TO_THE_63 <= x < TWO_TO_THE_63

  predicate IsDigit(c: char) {
    '0' <= c <= '9'
  }

  function DigitValue(c: char): nat
    requires IsDigit(c)
  {
    c as int - '0' as int
  }

  function Value(digits: string): nat
    requires forall c :: c in digits ==> IsDigit(c)
  {
    if digits == [] then 0
    else
      var n := |digits| - 1;
      assert IsDigit(digits[n]);
      10 * Value(digits[..n]) + DigitValue(digits[n])
  }

  /** strconv.ParseInt(s, 10, 64): a sign if any, one digit or more, and no overflow. */
  function ParseInt(s: string): Option<Int64> {
    var digits := if s != [] && s[0] in {'+', '-'} then s[1..] else s;
    if digits == [] || exists c :: c in digits && !IsDigit(c) then None
    else
      var v: int := if s[0] == '-' then -(Value(digits) as int) else Value(digits);
      if -TWO_TO_THE_63 <= v < TWO_TO_THE_63 then Some(v) else None
  }

  /** A number as %d prints it. */
  function Decimal(n: nat): (r: string)
    ensures r != [] && forall c :: c in r ==> IsDigit(c)
  {
    var digit := [('0' as int + n % 10) as char];
    if n < 10 then digit else Decimal(n / 10) + digit
  }

  lemma {:induction false} DecimalValue(n: nat)
    ensures Value(Decimal(n)) == n
  {
    if n >= 10 {
      DecimalValue(n / 10);
      var r := Decimal(n);
      assert r[..|r| - 1] == Decimal(n / 10);
    }
  }

  /** Reading and printing are decimal. */
  lemma Decimals(digits: string, d: char, n: nat)
    requires (forall c :: c in digits ==> '0' <= c <= '9') && '0' <= d <= '9'
    ensures Value("") == 0 && Value(digits + [d]) == 10 * Value(digits) + (d as int - '0' as int)
    ensures n < 10 ==> Decimal(n) == [('0' as int + n) as char]
    ensures n >= 10 ==> Decimal(n) == Decimal(n / 10) + [('0' as int + n % 10) as char]
  {
    assert (digits + [d])[..|digits|] == digits;
  }

  /** What is printed is read back. */
  lemma ParsePrinted(n: nat)
    requires n < 0x8000_0000_0000_0000
    ensures ParseInt(Decimal(n)) == Some(n)
  {
    DecimalValue(n);
    assert IsDigit(Decimal(n)[0]);
  }

  // ------------------------------------------------- parsing a range

  datatype RangeResult = Invalid | Valid(start: int, end: int)

  predicate HasPrefix(s: string, prefix: string) {
    prefix <= s
  }

  /** 64-bit subtraction. */
  function Minus(a: Int64, b: Int64): Int64 {
    var d := a - b;
    if d < -TWO_TO_THE_63 then d + 2 * TWO_TO_THE_63
    else if d >= TWO_TO_THE_63 then d - 2 * TWO_TO_THE_63
    else d
  }

  /** The difference modulo 2^64, as a signed number. */
  lemma MinusWraps(a: Int64, b: Int64)
    ensures -0x8000_0000_0000_0000 <= Minus(a, b) < 0x8000_0000_0000_0000
    ensures (Minus(a, b) - (a - b)) % 0x1_0000_0000_0000_0000 == 0
  {
  }

  function ParseRange(header: string, size: Int64): RangeResult {
    if !HasPrefix(header, "bytes=") then Invalid
    else
      var spec := header[|"bytes="|..];
      var parts := Split(spec, '-');
      if ',' in spec || |parts| != 2 then Invalid
      else if parts[0] == "" then
        var suffix := ParseInt(parts[1]);
        if parts[1] == "" || suffix == None || suffix.value <= 0 then Invalid
        else
          var length := if suffix.value > size then size else suffix.value;
          Valid(Minus(size, length), Minus(size, 1))
      else if parts[1] == "" then
        var start := ParseInt(parts[0]);
        if start == None || start.value < 0 || start.value >= size then Invalid
        else Valid(start.value, size - 1)
      else
        var start, end := ParseInt(parts[0]), ParseInt(parts[1]);
        if start == None || start.value < 0 then Invalid
        else if end == None || end.value < start.value || start.value >= size then Invalid
        else Valid(start.value, if end.value >= size then size - 1 else end.value)
  }

  // ------------------------------------------------- what a range asks for

  predicate Digits(s: string) {
    s != "" && forall c :: c in s ==> IsDigit(c)
  }

  /** Positions are digits, however many; either of them may be left out, but not both. */
  predicate Positions(a: string, b: string) {
    (a != "" || b != "") && (a == "" || Digits(a)) && (b == "" || Digits(b))
  }

  /** Byte i of n is in the range from a to b: among the last b, from a on, or from a to b. */
  ghost predicate Wanted(a: string, b: string, n: int, i: int)
    requires Positions(a, b)
  {
    && 0 <= i < n
    && if a == "" then i >= n - Value(b) else i >= Value(a) && (b != "" ==> i <= Value(b))
  }

  /** Some byte of n is in the range. */
  predicate AnyWanted(a: string, b: string, n: int)
    requires Positions(a, b)
  {
    n > 0 && if a == "" then Value(b) > 0 else Value(a) < n && (b != "" ==> Value(a) <= Value(b))
  }

  lemma AnyIsSome(a: string, b: string, n: int)
    requires Positions(a, b)
    ensures AnyWanted(a, b, n) <==> exists i :: Wanted(a, b, n, i)
  {
    if AnyWanted(a, b, n) { assert Wanted(a, b, n, if a == "" then n - 1 else Value(a)); }
  }

  // ------------------------------------------------- what a header asks for

  function Lower(c: char): char {
    if 'A' <= c <= 'Z' then c + ('a' - 'A') else c
  }

  function Lowered(s: string): string {
    seq(|s|, i requires 0 <= i < |s| => Lower(s[i]))
  }

  predicate White(c: char) {
    c == ' ' || c == '\t'
  }

  /** Without the white space on the left. */
  function BareLeft(s: string): string {
    if s != "" && White(s[0]) then BareLeft(s[1..]) else s
  }

  /** Without the white space at both ends. */
  function Bare(s: string): string {
    BareRight(BareLeft(s))
  }

  function BareRight(s: string): string {
    if s != "" && White(s[|s| - 1]) then BareRight(s[..|s| - 1]) else s
  }

  /** A range from a to b, as section 14.1.1 of RFC 9110 writes it. */
  predicate Spec(e: string, a: string, b: string) {
    && e == a + "-" + b && Positions(a, b)
    && (a != "" && b != "" ==> Value(a) <= Value(b))
  }

  /** The list of ranges in a header: the name of the unit may be spelt in any letter case. */
  predicate BytesUnit(header: string) {
    |header| >= 6 && Lowered(header[..6]) == "bytes="
  }

  /** The elements of a list (section 5.6.1): what is between the commas.  Some may be empty, and
      white space is allowed beside a comma only. */
  ghost predicate RangeList(elements: seq<string>) {
    && (forall e | e in elements :: Bare(e) == "" || exists a, b :: Spec(Bare(e), a, b))
    && elements != []
    && (Bare(elements[0]) != "" ==> BareLeft(elements[0]) == elements[0])
    && (Bare(elements[|elements| - 1]) != "" ==> BareRight(elements[|elements| - 1]) == elements[|elements| - 1])
  }

  /** Byte i of n is among those the header asks for, as sections 14.1 and 14.2 of RFC 9110 have it:
      it lies in some range of the list. */
  ghost predicate Asked(header: string, n: int, i: int) {
    && BytesUnit(header) && RangeList(Split(header[6..], ','))
    && exists e, a, b :: e in Split(header[6..], ',') && Spec(Bare(e), a, b) && Wanted(a, b, n, i)
  }

  ghost predicate AnyAsked(header: string, n: int) {
    exists i :: Asked(header, n, i)
  }

  // ------------------------------------------------- what the code makes of it

  /** The header has two parts. */
  ghost predicate Asks(header: string, a: string, b: string) {
    && header == "bytes=" + a + "-" + b
    && '-' !in a && '-' !in b && ',' !in a && ',' !in b
  }

  /** The parser's numbers may carry a plus sign. */
  function Plain(s: string): string {
    if |s| > 1 && s[0] == '+' then s[1..] else s
  }

  predicate Signed(s: string) {
    Plain(s) != s
  }

  /** The last position, or the length of a suffix, is too large for the parser. */
  predicate Overflows(b: string)
    requires b == "" || Digits(b)
  {
    b != "" && Value(b) >= 0x8000_0000_0000_0000
  }

  lemma ParsesPlain(s: string)
    requires '-' !in s
    ensures ParseInt(s) == if Digits(Plain(s)) && Value(Plain(s)) < TWO_TO_THE_63 then Some(Value(Plain(s))) else None
  {
    if s != "" { assert s[0] in s; }
    if |s| > 0 && s[0] == '+' {
      assert !IsDigit('+');
      if |s| == 1 { assert s[1..] == [] && '+' in s; }
    }
  }

  lemma {:induction false} SplitAtOne(a: string, b: string, sep: char)
    requires sep !in a && sep !in b
    ensures Split(a + [sep] + b, sep) == [a, b]
  {
    var s := a + [sep] + b;
    if a == [] {
      assert s[1..] == b;
      SplitWithout(b, sep);
    } else {
      assert s[1..] == a[1..] + [sep] + b;
      SplitAtOne(a[1..], b, sep);
      assert [s[0]] + a[1..] == a;
    }
  }

  lemma {:induction false} SplitInOne(s: string, sep: char)
    requires |Split(s, sep)| == 1
    ensures Split(s, sep)[0] == s
  {
    if s != [] { SplitInOne(s[1..], sep); }
  }

  lemma {:induction false} SplitInTwo(s: string, sep: char)
    requires |Split(s, sep)| == 2
    ensures s == Split(s, sep)[0] + [sep] + Split(s, sep)[1]
  {
    var rest := Split(s[1..], sep);
    if s[0] == sep {
      SplitInOne(s[1..], sep);
      assert s == [] + [sep] + s[1..];
    } else {
      SplitInTwo(s[1..], sep);
      assert s == [s[0]] + (rest[0] + [sep] + rest[1]) == ([s[0]] + rest[0]) + [sep] + rest[1];
    }
  }

  /** The parts of a header that asks for a range. */
  lemma AskedParts(header: string, a: string, b: string)
    requires Asks(header, a, b)
    ensures HasPrefix(header, "bytes=") && ',' !in header[6..] && Split(header[6..], '-') == [a, b]
  {
    assert header == "bytes=" + (a + ['-'] + b);
    assert header[6..] == a + ['-'] + b;
    SplitAtOne(a, b, '-');
  }

  lemma AskedOnce(header: string, a: string, b: string, c: string, d: string)
    requires Asks(header, a, b) && Asks(header, c, d)
    ensures a == c && b == d
  {
    AskedParts(header, a, b);
    AskedParts(header, c, d);
    assert [a, b][0] == [c, d][0] && [a, b][1] == [c, d][1];
  }

  /** A header that is not of that form is refused. */
  lemma RefusedUnlessAsked(header: string, n: Int64) returns (a: string, b: string)
    requires ParseRange(header, n).Valid?
    ensures Asks(header, a, b)
  {
    var spec := header[6..];
    var parts := Split(spec, '-');
    a, b := parts[0], parts[1];
    SplitInTwo(spec, '-');
    assert header == "bytes=" + spec;
    assert header == "bytes=" + a + "-" + b;
    forall c | c in a || c in b ensures c in spec {}
  }

  lemma PositionsArePlain(a: string, b: string)
    requires Positions(a, b)
    ensures '-' !in a && '-' !in b && ',' !in a && ',' !in b && Plain(a) == a && Plain(b) == b
  {
    assert !IsDigit('-') && !IsDigit(',') && !IsDigit('+');
    if |a| > 1 { assert a[0] in a; }
    if |b| > 1 { assert b[0] in b; }
  }

  /** What the code makes of two parts, by which of them are there. */
  function Resolved(a: string, b: string, n: int): RangeResult
    requires Positions(a, b) && !Overflows(b) && AnyWanted(a, b, n)
  {
    if a == "" then Valid(if Value(b) > n then 0 else n - Value(b), n - 1)
    else if b == "" then Valid(Value(a), n - 1)
    else Valid(Value(a), if Value(b) >= n then n - 1 else Value(b))
  }

  lemma ParsedParts(header: string, a: string, b: string, n: Int64)
    requires Asks(header, a, b) && n > 0
    ensures var c, d := Plain(a), Plain(b);
            ParseRange(header, n) ==
            if Positions(c, d) && !Overflows(d) && AnyWanted(c, d, n) then Resolved(c, d, n) else Invalid
  {
    AskedParts(header, a, b);
    ParsesPlain(a);
    ParsesPlain(b);
  }

  lemma ResolvedIsWanted(a: string, b: string, n: int)
    requires Positions(a, b) && !Overflows(b) && AnyWanted(a, b, n)
    ensures var r := Resolved(a, b, n);
            0 <= r.start <= r.end < n && forall i :: r.start <= i <= r.end <==> Wanted(a, b, n, i)
  {
  }

  /** Exactly what the code serves of content that is not empty: plus signs aside, the header
      must be a range that asks for some byte and does not end in a number too large; then
      exactly the bytes asked for are selected. */
  lemma Served(header: string, a: string, b: string, n: Int64)
    requires Asks(header, a, b) && n > 0
    ensures var r, c, d := ParseRange(header, n), Plain(a), Plain(b);
            && (r.Valid? <==> Positions(c, d) && !Overflows(d) && AnyWanted(c, d, n))
            && (r.Valid? ==> 0 <= r.start <= r.end < n && forall i :: r.start <= i <= r.end <==> Wanted(c, d, n, i))
  {
    ParsedParts(header, a, b, n);
    var c, d := Plain(a), Plain(b);
    if Positions(c, d) && !Overflows(d) && AnyWanted(c, d, n) { ResolvedIsWanted(c, d, n); }
  }

  lemma NotWhite(s: string)
    requires s != "" ==> !White(s[0]) && !White(s[|s| - 1])
    ensures BareLeft(s) == BareRight(s) == Bare(s) == s
  {
  }

  /** A range begins and ends in a digit or in its dash. */
  lemma SpecIsBare(a: string, b: string)
    requires Positions(a, b)
    ensures var e := a + "-" + b; BareLeft(e) == BareRight(e) == Bare(e) == e != ""
  {
    var e := a + "-" + b;
    assert !IsDigit(' ') && !IsDigit('\t');
    if a != "" { assert e[0] == a[0] && a[0] in a; }
    if b != "" { assert e[|e| - 1] == b[|b| - 1] && b[|b| - 1] in b; }
    NotWhite(e);
  }

  /** A header without a comma is a list of one element. */
  lemma OneElement(header: string, n: int, i: int)
    requires HasPrefix(header, "bytes=") && ',' !in header
    ensures Asked(header, n, i) <==> exists a, b :: Spec(header[6..], a, b) && Wanted(a, b, n, i)
  {
    var spec := header[6..];
    SplitWithout(spec, ',');
    if Asked(header, n, i) {
      AloneIsBare(spec);
    }
    if a, b :| Spec(spec, a, b) && Wanted(a, b, n, i) {
      SpecIsBare(a, b);
      CapitalsAside(header);
      assert Split(spec, ',')[0] == spec;
    }
  }

  lemma AloneIsBare(e: string)
    requires RangeList([e])
    ensures Bare(e) == "" || Bare(e) == e
  {
    assert [e][0] == e;
  }

  lemma CapitalsAside(header: string)
    requires HasPrefix(header, "bytes=")
    ensures BytesUnit(header)
  {
    assert header[..6] == "bytes=" && Lowered("bytes=") == "bytes=";
  }

  lemma SpecAsks(header: string, a: string, b: string)
    requires HasPrefix(header, "bytes=") && Spec(header[6..], a, b)
    ensures Asks(header, a, b)
  {
    PositionsArePlain(a, b);
    assert header == "bytes=" + header[6..] == "bytes=" + a + "-" + b;
  }

  /** Two parts without a sign are the range they look like. */
  lemma PartsAsked(header: string, a: string, b: string, n: int, i: int)
    requires Asks(header, a, b)
    ensures Asked(header, n, i) <==> Positions(a, b) && Wanted(a, b, n, i)
  {
    var spec := a + "-" + b;
    assert header == "bytes=" + spec && header[6..] == spec;
    OneElement(header, n, i);
    if c, d :| Spec(spec, c, d) && Wanted(c, d, n, i) {
      PositionsArePlain(c, d);
      AskedOnce(header, a, b, c, d);
    }
    if Positions(a, b) && Wanted(a, b, n, i) { assert Spec(spec, a, b); }
  }

  /** The code does what the header asks for: it serves the bytes asked for if there are any,
      and refuses every other header. */
  ghost predicate Agrees(header: string, n: Int64) {
    var r := ParseRange(header, n);
    && (r.Valid? <==> AnyAsked(header, n))
    && (r.Valid? ==> forall i :: r.start <= i <= r.end <==> Asked(header, n, i))
  }

  /** Two parts ask for some byte, and either a position has a plus sign or the last one is too
      large, but not both: the former is served although it asks for nothing, the latter refused. */
  ghost predicate Misread(header: string, n: int) {
    exists a, b :: Asks(header, a, b) && PartsMisread(a, b, n)
  }

  predicate PartsMisread(a: string, b: string, n: int) {
    var c, d := Plain(a), Plain(b);
    Positions(c, d) && AnyWanted(c, d, n) && ((Signed(a) || Signed(b)) <==> !Overflows(d))
  }

  /** Some byte is asked for, with the unit spelt in other letters or with a comma. */
  ghost predicate Overlooked(header: string, n: int) {
    AnyAsked(header, n) && (!HasPrefix(header, "bytes=") || ',' in header)
  }

  /** Exactly when the code does what a header asks for, whatever the header. */
  lemma AgreesIff(header: string, n: Int64)
    requires n > 0
    ensures Agrees(header, n) <==> !Misread(header, n) && !Overlooked(header, n)
  {
    if a, b :| Asks(header, a, b) {
      PartsAgreeIff(header, a, b, n);
      NotOverlooked(header, a, b);
      if c, d :| Asks(header, c, d) && PartsMisread(c, d, n) { AskedOnce(header, a, b, c, d); }
    } else {
      OthersAgreeIff(header, n);
    }
  }

  lemma NotOverlooked(header: string, a: string, b: string)
    requires Asks(header, a, b)
    ensures HasPrefix(header, "bytes=") && ',' !in header
  {
    AskedParts(header, a, b);
    assert header == "bytes=" + header[6..];
  }

  lemma PartsAgreeIff(header: string, a: string, b: string, n: Int64)
    requires Asks(header, a, b) && n > 0
    ensures Agrees(header, n) <==> !PartsMisread(a, b, n)
  {
    Served(header, a, b, n);
    forall i ensures Asked(header, n, i) <==> Positions(a, b) && Wanted(a, b, n, i) {
      PartsAsked(header, a, b, n, i);
    }
    SignedIsNone(a);
    SignedIsNone(b);
    if Positions(a, b) {
      PositionsArePlain(a, b);
      AnyIsSome(a, b, n);
    }
  }

  lemma SignedIsNone(s: string)
    ensures Signed(s) ==> s != "" && !Digits(s)
  {
    if Signed(s) { assert s[0] in s && !IsDigit('+'); }
  }

  /** A header without two parts is refused.  That is right unless it asks for some byte, and
      only one that spells the unit otherwise or has a comma can. */
  lemma OthersAgreeIff(header: string, n: Int64)
    requires forall a, b :: !Asks(header, a, b)
    ensures !ParseRange(header, n).Valid?
    ensures Agrees(header, n) <==> !AnyAsked(header, n)
    ensures AnyAsked(header, n) ==> !HasPrefix(header, "bytes=") || ',' in header
  {
    if ParseRange(header, n).Valid? {
      var a, b := RefusedUnlessAsked(header, n);
    }
    if i :| Asked(header, n, i) && HasPrefix(header, "bytes=") && ',' !in header {
      OneElement(header, n, i);
      var a, b :| Spec(header[6..], a, b) && Wanted(a, b, n, i);
      SpecAsks(header, a, b);
    }
  }

  /** A header asks for the bytes of a range in its list. */
  lemma InList(header: string, e: string, a: string, b: string, n: int, i: int)
    requires BytesUnit(header) && RangeList(Split(header[6..], ',')) && e in Split(header[6..], ',')
    requires Spec(Bare(e), a, b) && Wanted(a, b, n, i)
    ensures Asked(header, n, i) && AnyAsked(header, n)
  {
    assert e in Split(header[6..], ',') && Spec(Bare(e), a, b) && Wanted(a, b, n, i);
    assert Asked(header, n, i);
  }

  /** A range in a unit spelt with a capital letter asks for the first byte of any content, and
      is refused. */
  lemma CapitalIsOverlooked(n: Int64)
    requires n > 0
    ensures Asked("Bytes=0-4", n, 0) && ParseRange("Bytes=0-4", n) == Invalid && !Agrees("Bytes=0-4", n)
  {
    var header := "Bytes=0-4";
    assert Lowered(header[..6]) == "bytes=";
    assert header[6..] == "0-4";
    SplitWithout("0-4", ',');
    ZeroToFour(n);
    InList(header, "0-4", "0", "4", n, 0);
    assert header[0] != "bytes="[0];
  }

  lemma ZeroToFour(n: int)
    requires n > 0
    ensures Spec("0-4", "0", "4") && Wanted("0", "4", n, 0) &&
            BareLeft("0-4") == BareRight("0-4") == Bare("0-4") == "0-4"
  {
    assert Value("0") == 0 && Value("4") == 4;
    assert "0-4" == "0" + "-" + "4";
    SpecIsBare("0", "4");
  }

  /** And so is a range with an empty element beside it. */
  lemma CommaIsOverlooked(n: Int64)
    requires n > 0
    ensures Asked("bytes=0-4,", n, 0) && ParseRange("bytes=0-4,", n) == Invalid && !Agrees("bytes=0-4,", n)
  {
    var header := "bytes=0-4,";
    assert Lowered(header[..6]) == "bytes=";
    assert header[6..] == "0-4" + [','] + "";
    SplitAtOne("0-4", "", ',');
    ZeroToFour(n);
    assert ["0-4", ""][0] == "0-4";
    InList(header, "0-4", "0", "4", n, 0);
  }

  /** The signed header that is served although it is no range. */
  lemma SignedIsServed()
    ensures ParseRange("bytes=+1-+2", 10) == Valid(1, 2) && !Agrees("bytes=+1-+2", 10)
  {
    var header := "bytes=+1-+2";
    assert header == "bytes=" + "+1" + "-" + "+2";
    assert Digits("1") && Value("1") == 1 && Digits("2") && Value("2") == 2;
    assert Plain("+1") == "1" && Plain("+2") == "2";
    ParsesPlain("+1");
    ParsesPlain("+2");
    AskedParts(header, "+1", "+2");
    PartsAgreeIff(header, "+1", "+2", 10);
  }

  /** The whole of any content, asked for with a last position too large, is refused. */
  lemma TooLargeIsRefused(n: Int64)
    requires n > 0
    ensures var header := "bytes=" + Decimal(0) + "-" + Decimal(TWO_TO_THE_63);
            (forall i :: 0 <= i < n ==> Asked(header, n, i)) && !ParseRange(header, n).Valid? && !Agrees(header, n)
  {
    DecimalValue(0);
    DecimalValue(TWO_TO_THE_63);
    TooLargeParts(Decimal(0), Decimal(TWO_TO_THE_63), n);
  }

  lemma TooLargeParts(a: string, b: string, n: Int64)
    requires n > 0 && Digits(a) && Digits(b) && Value(a) == 0 && Overflows(b)
    ensures var header := "bytes=" + a + "-" + b;
            (forall i :: 0 <= i < n ==> Asked(header, n, i)) && !ParseRange(header, n).Valid? && !Agrees(header, n)
  {
    var header := "bytes=" + a + "-" + b;
    PositionsArePlain(a, b);
    Served(header, a, b, n);
    PartsAgreeIff(header, a, b, n);
    forall i | 0 <= i < n ensures Asked(header, n, i) {
      PartsAsked(header, a, b, n, i);
    }
  }

  /** Empty content has no byte to serve, but a suffix range of it is not refused: what the
      parser calls valid denotes bytes of the content if and only if there is content. */
  lemma ValidNeedsContent(header: string, n: Int64)
    requires ParseRange(header, n).Valid?
    ensures var r := ParseRange(header, n); 0 <= r.start <= r.end < n <==> n > 0
  {
  }

  lemma SuffixOfNothing()
    ensures ParseRange("bytes=-5", 0) == Valid(0, -1)
  {
    var header := "bytes=-5";
    assert header == "bytes=" + "" + "-" + "5";
    AskedParts(header, "", "5");
    assert Decimal(5) == "5";
    ParsePrinted(5);
  }

  /** A range printed in decimal is understood, and clipped to the content. */
  lemma PrintedRange(a: nat, b: nat, n: Int64)
    requires a <= b < TWO_TO_THE_63 && a < n
    ensures ParseRange("bytes=" + Decimal(a) + "-" + Decimal(b), n) == Valid(a, if b < n then b else n - 1)
  {
    PrintedParts(Decimal(a), Decimal(b));
    ParsePrinted(a);
    ParsePrinted(b);
  }

  lemma PrintedParts(a: string, b: string)
    requires Digits(a) && Digits(b)
    ensures var header := "bytes=" + a + "-" + b;
            HasPrefix(header, "bytes=") && ',' !in header[6..] && Split(header[6..], '-') == [a, b]
  {
    PositionsArePlain(a, b);
    AskedParts("bytes=" + a + "-" + b, a, b);
  }

  // ------------------------------------------------- serving a range

  const ACCEPT_RANGES := "Accept-Ranges"
  const CONTENT_RANGE := "Content-Range"
  const CONTENT_LENGTH := "Content-Length"
  const PARTIAL_CONTENT := 206
  const RANGE_NOT_SATISFIABLE := 416

  class Response {
    var statusCode: int
    var header: map<string, string>
    var body: Option<seq<Byte>>

    constructor (body: seq<Byte>)
      ensures statusCode == 200 && header == map[] && this.body == Some(body)
    {
      statusCode, header, this.body := 200, map[], Some(body);
    }
  }

  datatype Reply = Reply(statusCode: int, header: map<string, string>, body: Option<seq<Byte>>)

  function ReplyOf(resp: Response): Reply
    reads resp
  {
    Reply(resp.statusCode, resp.header, resp.body)
  }

  function ContentRange(start: nat, end: nat, n: nat): string {
    "bytes " + Decimal(start) + "-" + Decimal(end) + "/" + Decimal(n)
  }

  /** The body is cut down to the bytes from start to end, and says so. */
  function Partial(was: Reply, start: nat, end: nat): Reply
    requires was.body.Some? && start <= end < |was.body.value|
  {
    var content := was.body.value;
    Reply(PARTIAL_CONTENT,
          was.header[ACCEPT_RANGES := "bytes"][CONTENT_RANGE := ContentRange(start, end, |content|)]
                    [CONTENT_LENGTH := Decimal(end + 1 - start)],
          Some(content[start..end + 1]))
  }

  /** Refused; the body and its length stay as they were. */
  function Refused(was: Reply): Reply
    requires was.body.Some?
  {
    Reply(RANGE_NOT_SATISFIABLE,
          was.header[ACCEPT_RANGES := "bytes"][CONTENT_RANGE := "bytes */" + Decimal(|was.body.value|)], was.body)
  }

  /** The value says what it is about: start, end and size can be read back from it. */
  lemma ContentRangeGivesBack(start: nat, end: nat, n: nat)
    requires start < 0x8000_0000_0000_0000 && end < 0x8000_0000_0000_0000 && n < 0x8000_0000_0000_0000
    ensures var value := ContentRange(start, end, n);
            && HasPrefix(value, "bytes ")
            && var parts := Split(value[6..], '/');
               |parts| == 2 && ParseInt(parts[1]) == Some(n) &&
               var bounds := Split(parts[0], '-');
               |bounds| == 2 && ParseInt(bounds[0]) == Some(start) && ParseInt(bounds[1]) == Some(end)
  {
    var a, b, c := Decimal(start), Decimal(end), Decimal(n);
    assert !IsDigit('-') && !IsDigit('/');
    var range := a + ['-'] + b;
    assert ContentRange(start, end, n) == "bytes " + (range + ['/'] + c);
    assert ContentRange(start, end, n)[6..] == range + ['/'] + c;
    SplitAtOne(range, c, '/');
    SplitAtOne(a, b, '-');
    ParsePrinted(start);
    ParsePrinted(end);
    ParsePrinted(n);
  }

  /** The reply that is due, given the Range header of the request ("" if there is none):
      the response as it was, or with ranges offered, or the bytes asked for, or a refusal. */
  ghost predicate Due(was: Reply, enabled: bool, rangeHeader: string, now: Reply) {
    if !enabled || was.body == None || was.body.value == [] then now == was
    else if rangeHeader == "" then now == was.(header := was.header[ACCEPT_RANGES := "bytes"])
    else if SomeWanted(rangeHeader, |was.body.value|) then
      exists start, end | 0 <= start <= end < |was.body.value| ::
        AllWanted(rangeHeader, |was.body.value|, start, end) && now == Partial(was, start, end)
    else now == Refused(was)
  }

  /** Plus signs aside, the header is a range that asks for a byte there is, and the parser
      can read it. */
  ghost predicate SomeWanted(header: string, n: nat) {
    exists a, b :: Asks(header, a, b) && Positions(Plain(a), Plain(b)) && !Overflows(Plain(b)) &&
           AnyWanted(Plain(a), Plain(b), n)
  }

  /** The bytes from start to end are those asked for. */
  ghost predicate AllWanted(header: string, n: nat, start: int, end: int) {
    exists a, b :: Asks(header, a, b) && Positions(Plain(a), Plain(b)) &&
      forall i :: start <= i <= end <==> Wanted(Plain(a), Plain(b), n, i)
  }

  lemma ParsedIsWanted(header: string, n: Int64)
    requires n > 0
    ensures ParseRange(header, n).Valid? <==> SomeWanted(header, n)
    ensures var r := ParseRange(header, n);
            r.Valid? ==> 0 <= r.start <= r.end < n && AllWanted(header, n, r.start, r.end)
  {
    if ParseRange(header, n).Valid? {
      var a, b := RefusedUnlessAsked(header, n);
      Served(header, a, b, n);
    }
    if SomeWanted(header, n) {
      var a, b :| Asks(header, a, b) && Positions(Plain(a), Plain(b)) && !Overflows(Plain(b)) &&
          AnyWanted(Plain(a), Plain(b), n);
      Served(header, a, b, n);
    }
  }

  lemma ParsedInside(header: string, n: Int64)
    requires n > 0
    ensures var r := ParseRange(header, n); r.Valid? ==> 0 <= r.start <= r.end < n
  {
  }

  /** The reply as the code makes it. */
  function AutoRange(was: Reply, enabled: bool, rangeHeader: string): Reply
    requires was.body.Some? ==> |was.body.value| < TWO_TO_THE_63
  {
    if !enabled || was.body == None || was.body.value == [] then was
    else if rangeHeader == "" then was.(header := was.header[ACCEPT_RANGES := "bytes"])
    else
      ParsedInside(rangeHeader, |was.body.value|);
      match ParseRange(rangeHeader, |was.body.value|)
      case Valid(start, end) => Partial(was, start, end)
      case Invalid => Refused(was)
  }

  /** The code makes the reply that is due. */
  lemma AutoRangeIsDue(was: Reply, enabled: bool, rangeHeader: string)
    requires was.body.Some? ==> |was.body.value| < TWO_TO_THE_63
    ensures Due(was, enabled, rangeHeader, AutoRange(was, enabled, rangeHeader))
  {
    if was.body.Some? && was.body.value != [] { ParsedIsWanted(rangeHeader, |was.body.value|); }
  }

  /** The replies, spelt out: every header but the three is as it was, and the body is cut to the
      bytes from start to end, or left. */
  lemma RepliesLiterally(was: Reply, rangeHeader: string)
    requires was.body.Some? && 0 < |was.body.value| < TWO_TO_THE_63
    ensures var content := was.body.value;
            var n := |content|;
            var now := AutoRange(was, true, rangeHeader);
            && now.header.Keys <= was.header.Keys + {"Accept-Ranges", "Content-Range", "Content-Length"}
            && (forall k :: k in was.header && k !in {"Accept-Ranges", "Content-Range", "Content-Length"} ==>
                  k in now.header && now.header[k] == was.header[k])
            && "Accept-Ranges" in now.header && now.header["Accept-Ranges"] == "bytes"
            && (rangeHeader == "" ==> now == was.(header := was.header["Accept-Ranges" := "bytes"]))
            && (rangeHeader != "" && !SomeWanted(rangeHeader, n) ==>
                  && now.statusCode == 416 && now.body == was.body
                  && "Content-Range" in now.header && now.header["Content-Range"] == "bytes */" + Decimal(n)
                  && ("Content-Length" in now.header <==> "Content-Length" in was.header))
            && (rangeHeader != "" && SomeWanted(rangeHeader, n) ==>
                  exists start, end | 0 <= start <= end < n ::
                    && AllWanted(rangeHeader, n, start, end)
                    && now.statusCode == 206 && now.body == Some(content[start..end + 1])
                    && "Content-Range" in now.header && now.header["Content-Range"] == ContentRange(start, end, n)
                    && "Content-Length" in now.header && now.header["Content-Length"] == Decimal(end + 1 - start))
  {
    AutoRangeIsDue(was, true, rangeHeader);
  }

  /** After a handler filled in a response: ranges are offered, and the one asked for is cut
      out of the body.  A body is never longer than a machine integer can say. */
  method HandleAutoRange(supporter: bool, enableAutoRange: bool, rangeHeader: string, resp: Response)
    requires resp.body.Some? ==> |resp.body.value| < TWO_TO_THE_63
    modifies resp
    ensures ReplyOf(resp) == AutoRange(old(ReplyOf(resp)), supporter && enableAutoRange, rangeHeader)
  {
    if !supporter || !enableAutoRange {
      return;
    }
    if resp.body == None || |resp.body.value| == 0 {
      return;
    }
    resp.header := resp.header[ACCEPT_RANGES := "bytes"];
    if rangeHeader == "" {
      return;
    }
    var content := resp.body.value;
    ParsedInside(rangeHeader, |content|);
    match ParseRange(rangeHeader, |content|) {
      case Valid(start, end) =>
        var rangeData := content[start..end + 1];
        resp.statusCode := PARTIAL_CONTENT;
        resp.header := resp.header[CONTENT_RANGE := ContentRange(start, end, |content|)];
        resp.header := resp.header[CONTENT_LENGTH := Decimal(|rangeData|)];
        resp.body := Some(rangeData);
      case Invalid =>
        resp.statusCode := RANGE_NOT_SATISFIABLE;
        resp.header := resp.header[CONTENT_RANGE := "bytes */" + Decimal(|content|)];
    }
  }

  // ------------------------------------------------- tiling

  /** Cut points from 0 to n. */
  predicate Cuts(cuts: seq<nat>, n: nat) {
    && |cuts| > 1 && cuts[0] == 0 && cuts[|cuts| - 1] == n
    && forall i :: 0 < i < |cuts| ==> cuts[i - 1] < cuts[i] <= n
  }

  method FetchTile(content: seq<Byte>, start: nat, end: nat) returns (reply: Reply)
    requires start <= end < |content| < TWO_TO_THE_63
    ensures reply == Partial(Reply(200, map[], Some(content)), start, end)
  {
    var resp := new Response(content);
    HandleAutoRange(true, true, "bytes=" + Decimal(start) + "-" + Decimal(end), resp);
    reply := ReplyOf(resp);
    AutoRangeIsDue(Reply(200, map[], Some(content)), true, "bytes=" + Decimal(start) + "-" + Decimal(end));
    DuePrinted(Reply(200, map[], Some(content)), start, end, reply);
  }

  /** Asked for in consecutive ranges, content comes back whole: each tile is served as partial
      content of its own length, and the tiles one after the other are the content. */
  method FetchTiles(content: seq<Byte>, cuts: seq<nat>) returns (fetched: seq<Byte>, replies: seq<Reply>)
    requires |content| < TWO_TO_THE_63 && Cuts(cuts, |content|)
    ensures fetched == content
    ensures |replies| == |cuts| - 1
    ensures forall i :: 0 <= i < |replies| ==>
              replies[i] == Partial(Reply(200, map[], Some(content)), cuts[i], cuts[i + 1] - 1)
  {
    fetched, replies := [], [];
    for i := 0 to |cuts| - 1
      invariant fetched == content[..cuts[i]]
      invariant |replies| == i
      invariant forall k :: 0 <= k < i ==>
                  replies[k] == Partial(Reply(200, map[], Some(content)), cuts[k], cuts[k + 1] - 1)
    {
      assert cuts[i + 1 - 1] < cuts[i + 1] <= |content|;
      var reply := FetchTile(content, cuts[i], cuts[i + 1] - 1);
      replies := replies + [reply];
      fetched := fetched + reply.body.value;
    }
  }

  /** A range printed in decimal leaves no choice. */
  lemma DuePrinted(was: Reply, start: nat, end: nat, now: Reply)
    requires was.body.Some? && start <= end < |was.body.value| < TWO_TO_THE_63
    requires Due(was, true, "bytes=" + Decimal(start) + "-" + Decimal(end), now)
    ensures now == Partial(was, start, end)
  {
    var n, header := |was.body.value|, "bytes=" + Decimal(start) + "-" + Decimal(end);
    PrintedRange(start, end, n);
    ParsedIsWanted(header, n);
    var s, e :| 0 <= s <= e < n && AllWanted(header, n, s, e) && now == Partial(was, s, e);
    PrintedWants(start, end, n, s, e);
  }

  lemma PrintedWants(start: nat, end: nat, n: nat, s: int, e: int)
    requires start <= end < n < TWO_TO_THE_63 && 0 <= s <= e < n
    requires AllWanted("bytes=" + Decimal(start) + "-" + Decimal(end), n, s, e)
    ensures s == start && e == end
  {
    var a, b := Decimal(start), Decimal(end);
    PositionsArePlain(a, b);
    var c, d :| Asks("bytes=" + a + "-" + b, c, d) && Positions(Plain(c), Plain(d)) &&
                forall i :: s <= i <= e <==> Wanted(Plain(c), Plain(d), n, i);
    AskedOnce("bytes=" + a + "-" + b, a, b, c, d);
    DecimalValue(start);
    DecimalValue(end);
    assert Wanted(a, b, n, s) && Wanted(a, b, n, e) && Wanted(a, b, n, start) && Wanted(a, b, n, end);
  }
}
