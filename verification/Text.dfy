/** Text helpers shared by the codecs: digits, numerals, splitting and joining.
    They stand for the library calls the programs make (`%d` and `%x` printing,
    digit tests, `smartlist_split_string`, `std.mem.splitScalar`). */
module Text {

  datatype Option<+T> = None | Some(value: T)

  type Byte = b: nat | b <= 255

  // ---------------------------------------------------------------- digits

  predicate IsDigit(c: char) {
    '0' <= c <= '9'
  }

  predicate IsXDigit(c: char) {
    IsDigit(c) || 'a' <= c <= 'f' || 'A' <= c <= 'F'
  }

  predicate AllDigits(s: string)
    ensures AllDigits(s) ==> AllXDigits(s)
  {
    forall i :: 0 <= i < |s| ==> IsDigit(s[i])
  }

  predicate AllXDigits(s: string) {
    forall i :: 0 <= i < |s| ==> IsXDigit(s[i])
  }

  lemma AllDigitsCons(c: char, s: string)
    ensures AllDigits([c] + s) <==> IsDigit(c) && AllDigits(s)
  {
    var t := [c] + s;
    assert t[0] == c;
    assert forall i :: 0 <= i < |s| ==> t[i + 1] == s[i];
    assert forall i :: 1 <= i < |t| ==> t[i] == s[i - 1];
    if AllDigits(t) {
      forall i | 0 <= i < |s| ensures IsDigit(s[i]) { assert t[i + 1] == s[i]; }
    }
  }

  /** The digit's value; any other character counts as zero. */
  function DigitValue(c: char): (v: nat)
    ensures v < 16 && (IsDigit(c) ==> v < 10)
  {
    if !IsXDigit(c) then 0
    else if c <= '9' then (c - '0') as int
    else if c <= 'F' then (c - 'A') as int + 10
    else (c - 'a') as int + 10
  }

  function DigitChar(v: nat): (c: char)
    requires v < 16
    ensures IsXDigit(c) && DigitValue(c) == v && (v < 10 ==> IsDigit(c))
  {
    if v < 10 then '0' + v as char else 'a' + (v - 10) as char
  }

  /** The digits, letter by letter: lower case is printed, both cases are read. */
  lemma DigitsAre(v: nat)
    requires v < 16
    ensures DigitChar(v) == "0123456789abcdef"[v]
    ensures DigitValue("0123456789abcdef"[v]) == v && DigitValue("0123456789ABCDEF"[v]) == v
    ensures IsXDigit("0123456789abcdef"[v]) && IsXDigit("0123456789ABCDEF"[v])
    ensures IsDigit("0123456789abcdef"[v]) <==> v < 10
  {
  }

  /** Nothing else is a digit. */
  lemma DigitsOnly(c: char)
    ensures IsXDigit(c) <==> exists v :: 0 <= v < 16 && (c == "0123456789abcdef"[v] || c == "0123456789ABCDEF"[v])
    ensures IsDigit(c) <==> exists v :: 0 <= v < 10 && c == "0123456789"[v]
  {
    if IsDigit(c) {
      var v := (c - '0') as int;
      assert c == "0123456789"[v] && c == "0123456789abcdef"[v];
    } else if 'a' <= c <= 'f' {
      assert c == "0123456789abcdef"[(c - 'a') as int + 10];
    } else if 'A' <= c <= 'F' {
      assert c == "0123456789ABCDEF"[(c - 'A') as int + 10];
    }
  }

  /** The number a digit string stands for; the last character is the least significant. */
  function ValueIn(base: nat, s: string): nat {
    if s == [] then 0 else base * ValueIn(base, s[..|s| - 1]) + DigitValue(s[|s| - 1])
  }

  /** What `%d` (base 10) and `%x` (base 16) print for a non-negative number. */
  function Numeral(base: nat, n: nat): (s: string)
    requires base == 10 || base == 16
    ensures AllXDigits(s) && (base == 10 ==> AllDigits(s))
    ensures 1 <= |s|
    ensures |s| > 1 ==> s[0] != '0'
    ensures n > 0 ==> s[0] != '0'
    decreases n
  {
    if n < base then [DigitChar(n)] else Numeral(base, n / base) + [DigitChar(n % base)]
  }

  /** One place of a numeral. */
  lemma LastPlace(base: nat, n: nat)
    requires base == 10 || base == 16
    ensures var last := ["0123456789abcdef"[n % base]];
            Numeral(base, n) == if n < base then last else Numeral(base, n / base) + last
  {
    DigitsAre(n % base);
  }

  /** Decimal numerals of up to three digits, written out: most significant first, no leading
      zeros. */
  lemma DecimalText(n: nat)
    requires n < 1000
    ensures var d := "0123456789";
            Numeral(10, n) == if n < 10 then [d[n]] else if n < 100 then [d[n / 10], d[n % 10]]
                              else [d[n / 100], d[n / 10 % 10], d[n % 10]]
  {
    LastPlace(10, n);
    LastPlace(10, n / 10);
    LastPlace(10, n / 100);
    assert n / 10 / 10 == n / 100;
    hide Numeral;
  }

  /** Hexadecimal numerals of up to four digits. */
  lemma HexText(n: nat)
    requires n < 65536
    ensures var d := "0123456789abcdef";
            Numeral(16, n) ==
            if n < 16 then [d[n]] else if n < 256 then [d[n / 16], d[n % 16]]
            else if n < 4096 then [d[n / 256], d[n / 16 % 16], d[n % 16]]
            else [d[n / 4096], d[n / 256 % 16], d[n / 16 % 16], d[n % 16]]
  {
    hide Numeral;
    LastPlace(16, n);
    LastPlace(16, n / 16);
    LastPlace(16, n / 256);
    LastPlace(16, n / 4096);
    QuotientOfQuotient(n);
  }

  lemma QuotientOfQuotient(n: nat)
    ensures n / 16 / 16 == n / 256 && n / 256 / 16 == n / 4096
  {
  }

  lemma {:induction false} NumeralValue(base: nat, n: nat)
    requires base == 10 || base == 16
    ensures ValueIn(base, Numeral(base, n)) == n
    decreases n
  {
    var s := Numeral(base, n);
    if n < base {
      assert s[..0] == [];
    } else {
      NumeralValue(base, n / base);
      assert s[..|s| - 1] == Numeral(base, n / base);
      assert s[|s| - 1] == DigitChar(n % base);
      if base == 10 {
        assert n == 10 * (n / 10) + n % 10;
      } else {
        assert n == 16 * (n / 16) + n % 16;
      }
    }
  }

  /** Distinct numbers print differently. */
  lemma NumeralInjective(base: nat, m: nat, n: nat)
    requires base == 10 || base == 16
    requires Numeral(base, m) == Numeral(base, n)
    ensures m == n
  {
    NumeralValue(base, m);
    NumeralValue(base, n);
  }

  lemma TensAndUnits(f: nat, d: nat)
    requires d < 10
    ensures (10 * f + d) / 10 == f && (10 * f + d) % 10 == d
  {
  }

  /** A decimal text without a superfluous leading zero is what printing its value gives. */
  lemma {:induction false} NumeralOfValue(s: string)
    requires AllDigits(s) && |s| >= 1 && (|s| > 1 ==> s[0] != '0')
    ensures Numeral(10, ValueIn(10, s)) == s
  {
    var last := s[|s| - 1];
    var front := s[..|s| - 1];
    assert DigitChar(DigitValue(last)) == last;
    assert s == front + [last];
    if |s| > 1 {
      NumeralOfValue(front);
      DecimalWidth(front);
      var f, d := ValueIn(10, front), DigitValue(last);
      TensAndUnits(f, d);
      assert ValueIn(10, s) == 10 * f + d && f >= 1;
    } else {
      assert front == [];
    }
  }

  lemma {:induction false} DecimalWidth(s: string)
    requires AllDigits(s)
    ensures |s| <= 3 ==> ValueIn(10, s) <= 999
    ensures |s| >= 4 && s[0] != '0' ==> ValueIn(10, s) >= 1000
    ensures |s| >= 1 && s[0] != '0' ==> ValueIn(10, s) >= 1
    ensures |s| >= 2 && s[0] != '0' ==> ValueIn(10, s) >= 10
    ensures |s| >= 3 && s[0] != '0' ==> ValueIn(10, s) >= 100
    ensures |s| <= 2 ==> ValueIn(10, s) <= 99
    ensures |s| <= 1 ==> ValueIn(10, s) <= 9
    ensures |s| == 0 ==> ValueIn(10, s) == 0
  {
    if s != [] {
      DecimalWidth(s[..|s| - 1]);
    }
  }

  lemma {:induction false} HexWidth(s: string)
    requires AllXDigits(s)
    ensures |s| <= 4 ==> ValueIn(16, s) <= 0xffff
    ensures |s| <= 3 ==> ValueIn(16, s) <= 0xfff
    ensures |s| <= 2 ==> ValueIn(16, s) <= 0xff
    ensures |s| <= 1 ==> ValueIn(16, s) <= 0xf
    ensures |s| == 0 ==> ValueIn(16, s) == 0
  {
    if s != [] {
      HexWidth(s[..|s| - 1]);
    }
  }

  lemma {:induction false} NumeralWidth(base: nat, n: nat)
    requires base == 10 || base == 16
    ensures n < base ==> |Numeral(base, n)| == 1
    ensures n < base * base ==> |Numeral(base, n)| <= 2
    ensures n < base * base * base ==> |Numeral(base, n)| <= 3
    ensures n < base * base * base * base ==> |Numeral(base, n)| <= 4
    decreases n
  {
    if n >= base {
      NumeralWidth(base, n / base);
      assert |Numeral(base, n)| == |Numeral(base, n / base)| + 1;
    }
  }

  // ---------------------------------------------------------------- split and join

  /** Cut a text at every occurrence of a separator, keeping empty pieces. */
  function Split(s: string, sep: char): (parts: seq<string>)
    ensures |parts| >= 1
  {
    if s == [] then [[]]
    else
      var rest := Split(s[1..], sep);
      if s[0] == sep then [[]] + rest else [[s[0]] + rest[0]] + rest[1..]
  }

  function Join(parts: seq<string>, sep: char): string {
    if parts == [] then []
    else if |parts| == 1 then parts[0]
    else parts[0] + [sep] + Join(parts[1..], sep)
  }

  predicate Free(s: string, sep: char) {
    forall i :: 0 <= i < |s| ==> s[i] != sep
  }

  predicate AllFree(parts: seq<string>, sep: char) {
    forall i :: 0 <= i < |parts| ==> Free(parts[i], sep)
  }

  lemma {:induction false} JoinSplit(s: string, sep: char)
    ensures Join(Split(s, sep), sep) == s
    ensures AllFree(Split(s, sep), sep)
  {
    if s != [] {
      JoinSplit(s[1..], sep);
      var rest := Split(s[1..], sep);
      var parts := Split(s, sep);
      if s[0] == sep {
        assert parts[1..] == rest;
        assert s == [sep] + s[1..];
      } else {
        assert parts[1..] == rest[1..];
        assert s == [s[0]] + s[1..];
        assert AllFree(rest, sep);
        assert Free(rest[0], sep);
        forall i | 0 <= i < |parts| ensures Free(parts[i], sep) {
          if i > 0 {
            assert parts[i] == rest[i];
          }
        }
      }
    }
  }

  /** Splitting takes off a separator-free first piece. */
  lemma {:induction false} SplitFirst(p: string, rest: string, sep: char)
    requires Free(p, sep)
    ensures Split(p + [sep] + rest, sep) == [p] + Split(rest, sep)
    ensures Split(p, sep) == [p]
  {
    var s := p + [sep] + rest;
    if p == [] {
      assert s[1..] == rest;
    } else {
      SplitFirst(p[1..], rest, sep);
      assert s[1..] == p[1..] + [sep] + rest;
      assert [p[0]] + p[1..] == p;
    }
  }

  lemma {:induction false} SplitJoin(parts: seq<string>, sep: char)
    requires parts != [] && AllFree(parts, sep)
    ensures Split(Join(parts, sep), sep) == parts
  {
    assert Free(parts[0], sep);
    if |parts| == 1 {
      SplitFirst(parts[0], [], sep);
    } else {
      SplitJoin(parts[1..], sep);
      SplitFirst(parts[0], Join(parts[1..], sep), sep);
    }
  }
}
