/**
 Text format of the index file: decimal numbers padded with spaces, and index
 records made of a chain pointer, a length and a colon-separated line.
 A string stands for the characters a C string holds before its terminator.
*/
module DbFormat {

  const IDXLEN_SZ: nat := 4
  const PTR_SZ: nat := 7
  const PTR_MAX: nat := 999999
  const NHASH: nat := 137
  const FREE_OFF: nat := 0
  const HASH_OFF: nat := PTR_SZ
  const IDXLEN_MIN: nat := 6
  const IDXLEN_MAX: nat := 1024
  const DATALEN_MIN: nat := 2
  const DATALEN_MAX: nat := 1024
  const SEP: char := ':'
  const SPACE: char := ' '
  const NEWLINE: char := '\n'

  /** Where the header ends and the index records begin. */
  const HEADER: nat := (NHASH + 1) * PTR_SZ + 1

  // ---------- numbers ----------

  predicate IsDigit(c: char) { '0' <= c <= '9' }

  function DigitValue(c: char): nat
    requires IsDigit(c)
  {
    c as int - '0' as int
  }

  /** The text printf's %lld gives for a non-negative number. */
  function Digits(n: nat): (s: string)
    ensures |s| >= 1
    ensures forall c :: c in s ==> IsDigit(c)
  {
    var last := ['0' + (n % 10) as char];
    if n < 10 then last else Digits(n / 10) + last
  }

  function Spaces(n: nat): (s: string)
    ensures |s| == n
    ensures forall i :: 0 <= i < n ==> s[i] == SPACE
  {
    seq(n, _ => SPACE)
  }

  /** The text printf's %*lld gives: padded on the left up to a field width. */
  function Pad(width: nat, s: string): (r: string)
    ensures |r| == if |s| < width then width else |s|
  {
    if |s| < width then Spaces(width - |s|) + s else s
  }

  /** Value of the longest prefix of digits, continuing from acc. */
  function DigitsPrefix(s: string, acc: nat): nat {
    if s == "" || !IsDigit(s[0]) then acc
    else DigitsPrefix(s[1..], 10 * acc + DigitValue(s[0]))
  }

  /** The C library's atol and atoi on numbers that do not overflow. */
  function Atol(s: string): int {
    if s == "" then 0
    else if s[0] == SPACE then Atol(s[1..])
    else if s[0] == '-' then 0 - DigitsPrefix(s[1..], 0)
    else if s[0] == '+' then DigitsPrefix(s[1..], 0)
    else DigitsPrefix(s, 0)
  }

  lemma {:induction false} DigitsPrefixAppend(a: string, c: char, acc: nat)
    requires forall x :: x in a ==> IsDigit(x)
    requires IsDigit(c)
    ensures DigitsPrefix(a + [c], acc) == 10 * DigitsPrefix(a, acc) + DigitValue(c)
  {
    if a == "" {
      assert a + [c] == [c];
      assert [c][1..] == "";
    } else {
      assert (a + [c])[1..] == a[1..] + [c];
      assert a[0] in a;
      DigitsPrefixAppend(a[1..], c, 10 * acc + DigitValue(a[0]));
    }
  }

  lemma {:induction false} DigitsPrefixOfDigits(n: nat)
    ensures DigitsPrefix(Digits(n), 0) == n
  {
    var c := '0' + (n % 10) as char;
    assert DigitValue(c) == n % 10;
    if n < 10 {
      assert [c][1..] == "";
    } else {
      DigitsPrefixOfDigits(n / 10);
      DigitsPrefixAppend(Digits(n / 10), c, 0);
    }
  }

  lemma {:induction false} AtolSkipsSpaces(n: nat, s: string)
    ensures Atol(Spaces(n) + s) == Atol(s)
  {
    if n == 0 {
      assert Spaces(0) + s == s;
    } else {
      assert (Spaces(n) + s)[1..] == Spaces(n - 1) + s;
      AtolSkipsSpaces(n - 1, s);
    }
  }

  /** Printing a number into a padded field and reading it back gives the number. */
  lemma AtolOfPadded(width: nat, n: nat)
    ensures Atol(Pad(width, Digits(n))) == n
  {
    var s := Digits(n);
    assert s[0] in s;
    DigitsPrefixOfDigits(n);
    if |s| < width {
      AtolSkipsSpaces(width - |s|, s);
    }
  }

  lemma {:induction false} DigitsLength(n: nat, width: nat)
    requires 1 <= width && n < Pow10(width)
    ensures |Digits(n)| <= width
  {
    if n >= 10 {
      DigitsLength(n / 10, width - 1);
    }
  }

  function Pow10(k: nat): nat {
    if k == 0 then 1 else 10 * Pow10(k - 1)
  }

  /** Every pointer the code accepts fills its field exactly, with a space in front. */
  lemma PointerFieldWidth(p: nat)
    requires p <= PTR_MAX
    ensures |Pad(PTR_SZ, Digits(p))| == PTR_SZ
  {
    assert Pow10(6) == 1000000;
    DigitsLength(p, 6);
  }

  lemma LengthFieldWidth(n: nat)
    requires n <= IDXLEN_MAX
    ensures |Pad(IDXLEN_SZ, Digits(n))| == IDXLEN_SZ
  {
    assert Pow10(4) == 10000;
    DigitsLength(n, 4);
  }

  // ---------- hash ----------

  /** A plain char of the platform: one signed byte. */
  function SignedChar(c: char): int {
    var b := c as int % 256;
    if b < 128 then b else b - 256
  }

  const ULONG: nat := 0x1_0000_0000_0000_0000

  function HashFrom(key: string, i: nat, hval: nat): nat
    requires i <= |key|
    decreases |key| - i
  {
    if i == |key| then hval
    else HashFrom(key, i + 1, (hval + SignedChar(key[i]) * i) % ULONG)
  }

  /** The chain a key belongs to. */
  function Hash(key: string): (h: nat)
    ensures h < NHASH
  {
    HashFrom(key, 0, 0) % NHASH
  }

  /** The sum the hash reduces, in full: each signed byte times its index. */
  function IndexedSum(key: string): int {
    if key == "" then 0
    else IndexedSum(key[..|key| - 1]) + SignedChar(key[|key| - 1]) * (|key| - 1)
  }

  lemma ReduceLater(x: int, y: int)
    ensures (x % ULONG + y) % ULONG == (x + y) % ULONG
  {
    var q := x / ULONG;
    assert x == q * ULONG + x % ULONG;
    AddMultiple(x % ULONG + y, q);
  }

  lemma AddMultiple(x: int, q: int)
    ensures (x + q * ULONG) % ULONG == x % ULONG
  {
    var a, b := x / ULONG, (x + q * ULONG) / ULONG;
    var r, r' := x % ULONG, (x + q * ULONG) % ULONG;
    assert r - r' == (b - a - q) * ULONG;
    assert 0 - ULONG < r - r' < ULONG;
  }

  lemma {:induction false} HashFromSum(key: string, i: nat, hval: nat)
    requires i <= |key| && hval == IndexedSum(key[..i]) % ULONG
    ensures HashFrom(key, i, hval) == IndexedSum(key) % ULONG
    decreases |key| - i
  {
    if i == |key| {
      assert key[..i] == key;
    } else {
      var next := (hval + SignedChar(key[i]) * i) % ULONG;
      assert key[..i + 1][..i] == key[..i];
      ReduceLater(IndexedSum(key[..i]), SignedChar(key[i]) * i);
      HashFromSum(key, i + 1, next);
    }
  }

  /** The hash is the full sum, wrapped once to 64 bits: reducing at every step changes nothing. */
  lemma HashIsSum(key: string)
    ensures Hash(key) == IndexedSum(key) % ULONG % NHASH
  {
    assert key[..0] == "";
    HashFromSum(key, 0, 0);
  }

  lemma SumOfTwo(key: string)
    requires |key| == 2
    ensures IndexedSum(key) == SignedChar(key[1])
  {
    assert key[..1][..0] == "";
    assert IndexedSum(key[..1]) == IndexedSum("") == 0;
  }

  /** Two keys: a plain one, and one whose second byte, 200, is negative as a char and wraps the sum. */
  lemma HashValues()
    ensures Hash("ab") == 98
    ensures Hash(['a', 200 as char]) == 4
  {
    HashIsSum("ab");
    SumOfTwo("ab");
    HashIsSum(['a', 200 as char]);
    SumOfTwo(['a', 200 as char]);
  }

  // ---------- index records ----------

  /** An index record: chain pointer, key, and where its data lies. */
  datatype Rec = Rec(next: nat, key: string, datoff: nat, datlen: nat)

  /** The line part of an index record. */
  function Body(r: Rec): string {
    r.key + [SEP] + Digits(r.datoff) + [SEP] + Digits(r.datlen) + [NEWLINE]
  }

  /** The bytes of an index record. */
  function Format(r: Rec): string {
    Pad(PTR_SZ, Digits(r.next)) + Pad(IDXLEN_SZ, Digits(|Body(r)|)) + Body(r)
  }

  /** Bytes an index record takes. */
  function Size(r: Rec): nat {
    PTR_SZ + IDXLEN_SZ + |Body(r)|
  }

  /** What the writer checks before it writes a record (all but the separator). */
  predicate Fits(r: Rec) {
    && r.next <= PTR_MAX
    && IDXLEN_MIN <= |Body(r)| <= IDXLEN_MAX
    && 1 <= r.datlen <= DATALEN_MAX
  }

  lemma FormatSize(r: Rec)
    requires Fits(r)
    ensures |Format(r)| == Size(r)
  {
    PointerFieldWidth(r.next);
    LengthFieldWidth(|Body(r)|);
  }

  /** Outcome of reading an index record: end of file, an error that stops the program, or a record. */
  datatype Parsed = Eof | Corrupt | Parsed(next: int, key: string, datoff: int, datlen: int, end: nat)

  /** strchr: position of the first c, or -1. */
  function Strchr(s: string, c: char): (i: int)
    ensures -1 <= i < |s|
    ensures i == -1 ==> c !in s
    ensures i >= 0 ==> s[i] == c && c !in s[..i]
  {
    if s == "" then -1
    else if s[0] == c then 0
    else
      var j := Strchr(s[1..], c);
      assert s == [s[0]] + s[1..];
      assert j >= 0 ==> s[..j + 1] == [s[0]] + s[1..][..j];
      if j == -1 then -1 else j + 1
  }

  /** The two numbers behind the first separator. */
  function ParseNumbers(next: int, key: string, rest: string, end: nat): Parsed {
    var sep := Strchr(rest, SEP);
    if sep == -1 then Corrupt else
    var tail := rest[sep + 1..];
    if Strchr(tail, SEP) != -1 then Corrupt else
    var datoff := Atol(rest[..sep]);
    var datlen := Atol(tail);
    if datoff < 0 || datlen <= 0 || datlen > DATALEN_MAX then Corrupt
    else Parsed(next, key, datoff, datlen, end)
  }

  function ParseBody(next: int, buf: string, end: nat): Parsed
    requires buf != ""
  {
    if buf[|buf| - 1] != NEWLINE then Corrupt else
    var line := buf[..|buf| - 1];
    var sep := Strchr(line, SEP);
    if sep == -1 then Corrupt
    else ParseNumbers(next, line[..sep], line[sep + 1..], end)
  }

  /** Reading the index record that starts at a position of the index file. */
  function ReadRecord(file: string, pos: nat): Parsed {
    if pos >= |file| then Eof
    else if pos + PTR_SZ + IDXLEN_SZ > |file| then Corrupt
    else
      var start := pos + PTR_SZ + IDXLEN_SZ;
      var next := Atol(file[pos..pos + PTR_SZ]);
      var len := Atol(file[pos + PTR_SZ..start]);
      if len < IDXLEN_MIN || len > IDXLEN_MAX || start + len > |file| then Corrupt
      else ParseBody(next, file[start..start + len], start + len)
  }

  lemma {:induction false} StrchrAtMost(s: string, c: char, k: nat)
    requires k < |s| && s[k] == c
    ensures 0 <= Strchr(s, c) <= k
  {
    if s[0] != c {
      StrchrAtMost(s[1..], c, k - 1);
    }
  }

  lemma {:induction false} StrchrFirst(a: string, c: char, b: string)
    requires c !in a
    ensures Strchr(a + [c] + b, c) == |a|
  {
    var s := a + [c] + b;
    StrchrAtMost(s, c, |a|);
    assert forall i :: 0 <= i < |a| ==> s[i] == a[i];
  }

  lemma AtolOfDigits(n: nat)
    ensures Atol(Digits(n)) == n
  {
    AtolOfPadded(0, n);
  }

  /** The part of a line behind the key's separator. */
  function Numbers(r: Rec): string {
    Digits(r.datoff) + [SEP] + Digits(r.datlen)
  }

  lemma ParseNumbersBack(r: Rec, next: int, end: nat)
    requires 1 <= r.datlen <= DATALEN_MAX
    ensures ParseNumbers(next, r.key, Numbers(r), end) == Parsed(next, r.key, r.datoff, r.datlen, end)
  {
    var off, len, rest := Digits(r.datoff), Digits(r.datlen), Numbers(r);
    StrchrFirst(off, SEP, len);
    assert rest[..|off|] == off && rest[|off| + 1..] == len;
    assert SEP !in len;
    assert Strchr(len, SEP) == -1;
    AtolOfDigits(r.datoff);
    AtolOfDigits(r.datlen);
  }

  lemma ParseBodySplit(r: Rec, a: string, rest: string, next: int, end: nat)
    requires SEP !in a && r.key + [SEP] + Numbers(r) == a + [SEP] + rest
    ensures ParseBody(next, Body(r), end) == ParseNumbers(next, a, rest, end)
  {
    var line := a + [SEP] + rest;
    assert Body(r) == line + [NEWLINE];
    assert Body(r)[..|Body(r)| - 1] == line;
    StrchrFirst(a, SEP, rest);
    assert line[..|a|] == a && line[|a| + 1..] == rest;
  }

  /** Reading a line back, for keys with and without a separator. */
  lemma ParseBodyBack(r: Rec, next: int, end: nat)
    requires 1 <= r.datlen <= DATALEN_MAX
    ensures ParseBody(next, Body(r), end)
            == if SEP in r.key then Corrupt else Parsed(next, r.key, r.datoff, r.datlen, end)
  {
    if SEP !in r.key {
      ParseBodySplit(r, r.key, Numbers(r), next, end);
      ParseNumbersBack(r, next, end);
    } else {
      var i := Strchr(r.key, SEP);
      var a, b := r.key[..i], r.key[i + 1..];
      assert r.key == a + [SEP] + b;
      var rest := b + [SEP] + Digits(r.datoff) + [SEP] + Digits(r.datlen);
      assert r.key + [SEP] + Numbers(r) == a + [SEP] + rest;
      ParseBodySplit(r, a, rest, next, end);
      ThirdSeparator(b, Digits(r.datoff), Digits(r.datlen));
    }
  }

  /** Behind the first of the separators there is one too many. */
  lemma ThirdSeparator(b: string, off: string, len: string)
    ensures var rest := b + [SEP] + off + [SEP] + len;
            var j := Strchr(rest, SEP);
            j >= 0 && Strchr(rest[j + 1..], SEP) != -1
  {
    var rest := b + [SEP] + off + [SEP] + len;
    StrchrAtMost(rest, SEP, |b|);
    var j := Strchr(rest, SEP);
    var last := |b| + 1 + |off|;
    assert rest[last] == SEP;
    StrchrAtMost(rest[j + 1..], SEP, last - j - 1);
  }

  /**
   Round trip: what the writer puts into the index file, the reader parses back,
   wherever it lies in the file, exactly when the key holds no separator; for a
   key with a separator the reader stops the program.
  */
  lemma RoundTrip(pre: string, r: Rec, post: string)
    requires Fits(r)
    ensures SEP !in r.key <==>
            ReadRecord(pre + Format(r) + post, |pre|)
            == Parsed(r.next, r.key, r.datoff, r.datlen, |pre| + Size(r))
    ensures SEP in r.key ==> ReadRecord(pre + Format(r) + post, |pre|) == Corrupt
  {
    var file := pre + Format(r) + post;
    FormatSize(r);
    PointerFieldWidth(r.next);
    LengthFieldWidth(|Body(r)|);
    var p, n := |pre|, |Body(r)|;
    assert file[p..p + 7] == Pad(PTR_SZ, Digits(r.next));
    assert file[p + 7..p + 11] == Pad(IDXLEN_SZ, Digits(n));
    assert file[p + 11..p + 11 + n] == Body(r);
    AtolOfPadded(PTR_SZ, r.next);
    AtolOfPadded(IDXLEN_SZ, n);
    ParseBodyBack(r, r.next, p + Size(r));
  }

  /** A number read back from a pointer field is the number written. */
  lemma PointerRoundTrip(p: nat)
    requires p <= PTR_MAX
    ensures |Pad(PTR_SZ, Digits(p))| == PTR_SZ && Atol(Pad(PTR_SZ, Digits(p))) == p
  {
    PointerFieldWidth(p);
    AtolOfPadded(PTR_SZ, p);
  }

  lemma SomeDigits()
    ensures Digits(967) == "967" && Digits(14) == "14" && Digits(10) == "10" && Digits(6) == "6" && Digits(0) == "0"
  {
    assert Digits(9) == "9" && Digits(1) == "1";
    assert Digits(96) == Digits(9) + "6" == "96";
    assert Digits(967) == Digits(96) + "7";
    assert Digits(14) == Digits(1) + "4";
    assert Digits(10) == Digits(1) + "0";
  }

  lemma SomeSpaces()
    ensures Spaces(4) == "    " && Spaces(2) == "  " && Spaces(6) == "      "
  {
  }

  /** The bytes of one record: pointer and length right-aligned, then key, data offset and data length. */
  lemma RecordBytes()
    ensures Format(Rec(967, "beta", 6, 14)) == "    967  10beta:6:14\n"
    ensures Pad(PTR_SZ, Digits(0)) == "      0"
  {
    SomeDigits();
    SomeSpaces();
    hide Digits, Spaces;
    var body := Body(Rec(967, "beta", 6, 14));
    assert body == "beta" + ":" + "6" + ":" + "14" + "\n" == "beta:6:14\n";
    assert Pad(PTR_SZ, "967") == "    " + "967" == "    967";
    assert Pad(IDXLEN_SZ, "10") == "  " + "10" == "  10";
    assert Pad(PTR_SZ, "0") == "      " + "0" == "      0";
    assert "    967" + "  10" + "beta:6:14\n" == "    967  10beta:6:14\n";
  }
}
