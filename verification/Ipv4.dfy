/** Dotted-quad codecs: `tor_inet_aton` and `tor_inet_ntoa` of networking/add.c,
    and `inetAton` and `inetNtoa` of pipe.zig. An address is its 32-bit value in
    host order; the byte-order conversions around it cancel out. */
module Ipv4 {
  import opened Text

  type Quad = q: seq<nat> | |q| == 4 && forall i :: 0 <= i < 4 ==> q[i] <= 255 witness [0, 0, 0, 0]

  function Pack(q: Quad): (v: nat)
    ensures v < 0x1_0000_0000
  {
    q[0] * 0x100_0000 + q[1] * 0x1_0000 + q[2] * 0x100 + q[3]
  }

  function Unpack(v: nat): Quad
    requires v < 0x1_0000_0000
  {
    [v / 0x100_0000 % 256, v / 0x1_0000 % 256, v / 0x100 % 256, v % 256]
  }

  lemma PackUnpack(v: nat)
    requires v < 0x1_0000_0000
    ensures Pack(Unpack(v)) == v
  {
    var a, r := v / 0x100_0000, v % 0x100_0000;
    var b, t := r / 0x1_0000, r % 0x1_0000;
    var c, d := t / 0x100, t % 0x100;
    assert v == a * 0x100_0000 + b * 0x1_0000 + c * 0x100 + d;
    BytesOfSum(a, b, c, d);
  }

  lemma UnpackPack(q: Quad)
    ensures Unpack(Pack(q)) == q
  {
    BytesOfSum(q[0], q[1], q[2], q[3]);
  }

  lemma BytesOfSum(a: nat, b: nat, c: nat, d: nat)
    requires a < 256 && b < 256 && c < 256 && d < 256
    ensures var v := a * 0x100_0000 + b * 0x1_0000 + c * 0x100 + d;
            v / 0x100_0000 == a && v / 0x1_0000 % 256 == b && v / 0x100 % 256 == c && v % 256 == d
  {
    var v := a * 0x100_0000 + b * 0x1_0000 + c * 0x100 + d;
    assert v / 0x100_0000 == a;
    assert v / 0x1_0000 == a * 256 + b;
    assert v / 0x100 == (a * 256 + b) * 256 + c;
  }

  // ---------------------------------------------------------------- printing

  function OctetTexts(q: seq<nat>): (ts: seq<string>)
    ensures |ts| == |q|
    ensures forall i :: 0 <= i < |q| ==> ts[i] == Numeral(10, q[i])
  {
    seq(|q|, i requires 0 <= i < |q| => Numeral(10, q[i]))
  }

  /** The text `%d.%d.%d.%d`. */
  function QuadText(q: Quad): string {
    Numeral(10, q[0]) + "." + Numeral(10, q[1]) + "." + Numeral(10, q[2]) + "." + Numeral(10, q[3])
  }

  lemma QuadTextJoins(q: Quad)
    ensures QuadText(q) == Join(OctetTexts(q), '.')
    ensures Split(QuadText(q), '.') == OctetTexts(q)
    ensures 7 <= |QuadText(q)| <= 15
  {
    var ts := OctetTexts(q);
    calc {
      Join(ts, '.');
      ts[0] + "." + Join(ts[1..], '.');
      { assert ts[1..][1..] == ts[2..]; }
      ts[0] + "." + (ts[1] + "." + Join(ts[2..], '.'));
      { assert ts[2..][1..] == [ts[3]]; }
      ts[0] + "." + (ts[1] + "." + (ts[2] + "." + ts[3]));
      QuadText(q);
    }
    forall i | 0 <= i < 4 ensures Free(ts[i], '.') && |ts[i]| <= 3 {
      NumeralWidth(10, q[i]);
    }
    SplitJoin(ts, '.');
  }

  /** `tor_inet_ntoa`: print into the caller's buffer, which must also hold the
      terminating NUL; the result is the length, or -1 when the text was cut. */
  method TorInetNtoa(v: nat, buf: array<char>) returns (n: int)
    requires v < 0x1_0000_0000
    modifies buf
    ensures n == (if |QuadText(Unpack(v))| < buf.Length then |QuadText(Unpack(v))| else -1)
    ensures n >= 0 ==> buf[..n] == QuadText(Unpack(v)) && buf[n] == '\0'
  {
    var a, b, c, d := v / 0x100_0000 % 256, v / 0x1_0000 % 256, v / 0x100 % 256, v % 256;
    var text := Numeral(10, a) + "." + Numeral(10, b) + "." + Numeral(10, c) + "." + Numeral(10, d);
    forall i | 0 <= i < |text| && i < buf.Length {
      buf[i] := text[i];
    }
    if |text| >= buf.Length {
      if buf.Length > 0 {
        buf[buf.Length - 1] := '\0';
      }
      return -1;
    }
    buf[|text|] := '\0';
    n := |text|;
  }

  /** `inetNtoa` of pipe.zig: the same text, with no terminator to leave room for. */
  method ZigInetNtoa(v: nat, buf: array<char>) returns (r: Option<string>)
    requires v < 0x1_0000_0000
    modifies buf
    ensures r == if |QuadText(Unpack(v))| <= buf.Length then Some(QuadText(Unpack(v))) else None
    ensures r.Some? ==> buf[..|r.value|] == r.value
  {
    var text := QuadText([v / 0x100_0000 % 256, v / 0x1_0000 % 256, v / 0x100 % 256, v % 256]);
    if |text| > buf.Length {
      return None;
    }
    forall i | 0 <= i < |text| {
      buf[i] := text[i];
    }
    r := Some(text);
  }

  // ---------------------------------------------------------------- the C parser

  /** How many digits `%3u` takes from the front of a text. */
  function DigitRun(s: string, width: nat): (n: nat)
    ensures n <= width && n <= |s|
  {
    if width > 0 && s != [] && IsDigit(s[0]) then 1 + DigitRun(s[1..], width - 1) else 0
  }

  /** The scan `%3u.%3u. … %3u%c` with `k` numbers, which gives `k` conversions
      exactly when the numbers use up the whole text. */
  function ScanOctets(s: string, k: nat): (r: Option<seq<nat>>)
    requires k >= 1
    ensures r.Some? ==> |r.value| == k
  {
    var n := DigitRun(s, 3);
    if n == 0 then None
    else if k == 1 then (if n == |s| then Some([ValueIn(10, s[..n])]) else None)
    else if n == |s| || s[n] != '.' then None
    else match ScanOctets(s[n + 1..], k - 1)
      case None => None
      case Some(vs) => Some([ValueIn(10, s[..n])] + vs)
  }

  predicate IsNumber3(p: string) {
    1 <= |p| <= 3 && AllDigits(p)
  }

  function ValuesOf(parts: seq<string>): (vs: seq<nat>)
    ensures |vs| == |parts|
    ensures forall i :: 0 <= i < |vs| ==> vs[i] == ValueIn(10, parts[i])
  {
    seq(|parts|, i requires 0 <= i < |parts| => ValueIn(10, parts[i]))
  }

  /** The first piece of a split text, and how a digit run sits in it. */
  lemma FirstPiece(s: string, w: nat)
    ensures var parts := Split(s, '.'); var p := parts[0];
            && |p| <= |s| && s[..|p|] == p
            && (|p| == |s| <==> |parts| == 1)
            && (|p| < |s| ==> s[|p|] == '.' && Split(s[|p| + 1..], '.') == parts[1..])
    ensures var p, n := Split(s, '.')[0], DigitRun(s, w);
            && n <= |p|
            && (n == |p| <==> |p| <= w && AllDigits(p))
            && (n < |p| ==> s[n] != '.')
  {
    FirstPieceText(s);
    FirstPieceDigits(s, w);
  }

  lemma {:induction false} FirstPieceText(s: string)
    ensures var parts := Split(s, '.'); var p := parts[0];
            && |p| <= |s| && s[..|p|] == p
            && (|p| == |s| <==> |parts| == 1)
            && (|p| < |s| ==> s[|p|] == '.' && Split(s[|p| + 1..], '.') == parts[1..])
  {
    if s != [] && s[0] != '.' {
      var rest := Split(s[1..], '.');
      FirstPieceText(s[1..]);
      var p := [s[0]] + rest[0];
      assert Split(s, '.')[1..] == rest[1..];
      assert s[..|p|] == [s[0]] + s[1..][..|rest[0]|];
      if |rest[0]| < |s[1..]| {
        assert s[|p| + 1..] == s[1..][|rest[0]| + 1..];
      }
    }
  }

  lemma {:induction false} FirstPieceDigits(s: string, w: nat)
    ensures var p, n := Split(s, '.')[0], DigitRun(s, w);
            && |p| <= |s| && n <= |p|
            && (n == |p| <==> |p| <= w && AllDigits(p))
            && (n < |p| ==> s[n] != '.')
  {
    if s != [] && s[0] != '.' {
      FirstPieceDigits(s[1..], if w == 0 then 0 else w - 1);
      AllDigitsCons(s[0], Split(s[1..], '.')[0]);
    }
  }

  /** The scan succeeds exactly on `k` dot-separated numbers of one to three digits. */
  lemma {:induction false} ScanIsSplit(s: string, k: nat)
    requires k >= 1
    ensures ScanOctets(s, k).Some? <==> AreNumbers(Split(s, '.'), k)
    ensures AreNumbers(Split(s, '.'), k) ==> ScanOctets(s, k).value == ValuesOf(Split(s, '.'))
    decreases k
  {
    hide DigitRun, Split, AllDigits, ValueIn;
    var n := DigitRun(s, 3);
    var parts := Split(s, '.');
    FirstPiece(s, 3);
    if n != |parts[0]| || n == 0 {
      assert !IsNumber3(parts[0]);
      assert ScanOctets(s, k).None?;
    } else if k == 1 {
      if |parts| == 1 {
        assert ValuesOf(parts) == [ValueIn(10, s[..n])];
      }
    } else if |parts| > 1 {
      ScanIsSplit(s[n + 1..], k - 1);
      ScanStep(s, k, parts);
    }
  }

  lemma ScanStep(s: string, k: nat, parts: seq<string>)
    requires k > 1 && |parts| > 1 && IsNumber3(parts[0])
    requires var n := DigitRun(s, 3);
             && 0 < n < |s| && s[n] == '.' && parts[0] == s[..n]
             && (ScanOctets(s[n + 1..], k - 1).Some? <==> AreNumbers(parts[1..], k - 1))
             && (AreNumbers(parts[1..], k - 1) ==> ScanOctets(s[n + 1..], k - 1).value == ValuesOf(parts[1..]))
    ensures ScanOctets(s, k).Some? <==> AreNumbers(parts, k)
    ensures AreNumbers(parts, k) ==> ScanOctets(s, k).value == ValuesOf(parts)
  {
    hide DigitRun, AreNumbers, IsNumber3;
    assert parts == [parts[0]] + parts[1..];
    AreNumbersCons(parts[0], parts[1..], k);
    ScanUnfolds(s, k);
    hide ScanOctets;
    assert ValuesOf(parts) == [ValueIn(10, parts[0])] + ValuesOf(parts[1..]);
  }

  lemma ScanUnfolds(s: string, k: nat)
    requires k > 1
    ensures var n := DigitRun(s, 3);
            0 < n < |s| && s[n] == '.' ==>
              && (ScanOctets(s, k).Some? <==> ScanOctets(s[n + 1..], k - 1).Some?)
              && (ScanOctets(s, k).Some? ==>
                    ScanOctets(s, k).value == [ValueIn(10, s[..n])] + ScanOctets(s[n + 1..], k - 1).value)
  {
    hide DigitRun;
  }

  predicate AreNumbers(parts: seq<string>, k: nat) {
    |parts| == k && forall i :: 0 <= i < |parts| ==> IsNumber3(parts[i])
  }

  lemma AreNumbersCons(p: string, parts: seq<string>, k: nat)
    requires k >= 1
    ensures AreNumbers([p] + parts, k) <==> IsNumber3(p) && AreNumbers(parts, k - 1)
  {
    var all := [p] + parts;
    assert all[0] == p && forall i :: 0 <= i < |parts| ==> all[i + 1] == parts[i];
    if AreNumbers(all, k) {
      assert IsNumber3(all[0]);
      forall i | 0 <= i < |parts| ensures IsNumber3(parts[i]) { assert IsNumber3(all[i + 1]); }
    }
  }

  /** An octet text `tor_inet_aton` admits. */
  predicate IsOctet(p: string) {
    IsNumber3(p) && (|p| > 1 ==> p[0] != '0') && ValueIn(10, p) <= 255
  }

  predicate IsDottedQuad(s: string) {
    var parts := Split(s, '.');
    |parts| == 4 && forall i :: 0 <= i < 4 ==> IsOctet(parts[i])
  }

  function QuadOf(s: string): Quad
    requires IsDottedQuad(s)
  {
    ValuesOf(Split(s, '.'))
  }

  /** `tor_inet_aton`; the out-parameter is written only on success. */
  method TorInetAton(str: string) returns (ok: bool, addr: nat)
    ensures ok <==> IsDottedQuad(str)
    ensures ok ==> addr == Pack(QuadOf(str))
  {
    addr := 0;
    var scan := ScanOctets(str, 4);
    ScanIsSplit(str, 4);
    if scan.None? { return false, 0; }
    var a, b, c, d := scan.value[0], scan.value[1], scan.value[2], scan.value[3];
    var octets := Split(str, '.');
    var isOctal := false;
    var i := 0;
    while i < |octets| && !isOctal
      invariant 0 <= i <= |octets|
      invariant !isOctal ==> forall k :: 0 <= k < i ==> !(|octets[k]| > 1 && octets[k][0] == '0')
      invariant isOctal ==> i > 0 && |octets[i - 1]| > 1 && octets[i - 1][0] == '0'
    {
      isOctal := |octets[i]| > 1 && octets[i][0] == '0';
      i := i + 1;
    }
    if isOctal {
      assert !IsOctet(octets[i - 1]);
      return false, 0;
    }
    assert forall k :: 0 <= k < 4 ==> scan.value[k] == ValueIn(10, octets[k]);
    if a > 255 { assert !IsOctet(octets[0]); return false, 0; }
    if b > 255 { assert !IsOctet(octets[1]); return false, 0; }
    if c > 255 { assert !IsOctet(octets[2]); return false, 0; }
    if d > 255 { assert !IsOctet(octets[3]); return false, 0; }
    ok, addr := true, a * 0x100_0000 + b * 0x1_0000 + c * 0x100 + d;
  }

  // ---------------------------------------------------------------- the Zig parser

  function StripUnderscores(s: string): (r: string)
    ensures (forall i :: 0 <= i < |s| ==> IsDigit(s[i]) || s[i] == '_') ==> AllDigits(r)
    ensures AllDigits(s) ==> r == s
  {
    if s == [] then []
    else if s[0] == '_' then StripUnderscores(s[1..])
    else [s[0]] + StripUnderscores(s[1..])
  }

  predicate IsNumberBody(s: string) {
    s != [] && s[0] != '_' && s[|s| - 1] != '_' && forall i :: 0 <= i < |s| ==> IsDigit(s[i]) || s[i] == '_'
  }

  /** `std.fmt.parseInt(u8, octet, 10)`: an optional sign, then digits that inner
      underscores may group; the value must fit eight bits (so only zero may be negative). */
  function ZigParseU8(octet: string): (r: Option<nat>)
    ensures r.Some? ==> r.value <= 255
  {
    if octet == [] then None
    else
      var signed := octet[0] == '+' || octet[0] == '-';
      var body := if signed then octet[1..] else octet;
      if !IsNumberBody(body) then None
      else
        var v := ValueIn(10, StripUnderscores(body));
        if v > (if octet[0] == '-' then 0 else 255) then None else Some(v)
  }

  function ZigOctet(octet: string): (r: Option<nat>)
    ensures r.Some? ==> r.value <= 255
  {
    if |octet| > 1 && octet[0] == '0' then None else ZigParseU8(octet)
  }

  predicate ZigAccepts(s: string) {
    var parts := Split(s, '.');
    |parts| == 4 && forall i :: 0 <= i < 4 ==> ZigOctet(parts[i]).Some?
  }

  function ZigQuad(s: string): Quad
    requires ZigAccepts(s)
  {
    var parts := Split(s, '.');
    seq(4, i requires 0 <= i < 4 => ZigOctet(parts[i]).value)
  }

  lemma ZigBytes(s: string, bytes: seq<nat>)
    requires |Split(s, '.')| == |bytes| == 4
    requires forall k :: 0 <= k < 4 ==> ZigOctet(Split(s, '.')[k]) == Some(bytes[k])
    ensures ZigAccepts(s)
    ensures Pack(ZigQuad(s)) == bytes[0] * 0x100_0000 + bytes[1] * 0x1_0000 + bytes[2] * 0x100 + bytes[3]
  {
    assert forall k :: 0 <= k < 4 ==> ZigQuad(s)[k] == bytes[k];
  }

  method ZigReadOctet(octet: string) returns (r: Option<nat>)
    ensures r == ZigOctet(octet)
  {
    if |octet| > 1 && octet[0] == '0' { return None; }
    r := ZigParseU8(octet);
  }

  /** `inetAton` of pipe.zig. */
  method ZigInetAton(str: string) returns (r: Option<nat>)
    ensures r == if ZigAccepts(str) then Some(Pack(ZigQuad(str))) else None
  {
    hide ZigOctet;
    var iter := Split(str, '.');
    var parts := new nat[4];
    var i := 0;
    while i < |iter|
      invariant 0 <= i <= |iter| && i <= 4
      invariant forall k :: 0 <= k < i ==> ZigOctet(iter[k]) == Some(parts[k])
    {
      if i >= 4 { return None; }
      var value := ZigReadOctet(iter[i]);
      if value.None? { return None; }
      parts[i] := value.value;
      i := i + 1;
    }
    if i != 4 { return None; }
    ZigBytes(str, parts[..]);
    r := Some(parts[0] * 0x100_0000 + parts[1] * 0x1_0000 + parts[2] * 0x100 + parts[3]);
  }

  // ---------------------------------------------------------------- theorems

  /** Printing then parsing an address gives it back. */
  lemma ParseOfPrint(v: nat)
    requires v < 0x1_0000_0000
    ensures IsDottedQuad(QuadText(Unpack(v)))
    ensures Pack(QuadOf(QuadText(Unpack(v)))) == v
  {
    var q := Unpack(v);
    QuadTextJoins(q);
    var parts := OctetTexts(q);
    forall i | 0 <= i < 4 ensures IsOctet(parts[i]) && ValueIn(10, parts[i]) == q[i] {
      NumeralValue(10, q[i]);
      NumeralWidth(10, q[i]);
    }
    assert ValuesOf(parts) == q;
    PackUnpack(v);
  }

  /** Printing what the C parser read gives the text back: no address has two spellings. */
  lemma PrintOfParse(s: string)
    requires IsDottedQuad(s)
    ensures QuadText(Unpack(Pack(QuadOf(s)))) == s
  {
    var parts, q := Split(s, '.'), QuadOf(s);
    UnpackPack(q);
    QuadTextJoins(q);
    forall i | 0 <= i < 4 ensures OctetTexts(q)[i] == parts[i] {
      assert IsOctet(parts[i]);
      NumeralOfValue(parts[i]);
    }
    assert OctetTexts(q) == parts;
    JoinSplit(s, '.');
  }

  lemma TextOfQuad(q: Quad)
    ensures IsDottedQuad(QuadText(q)) && Pack(QuadOf(QuadText(q))) == Pack(q)
    ensures QuadText(Unpack(Pack(q))) == QuadText(q)
  {
    hide *;
    UnpackPack(q);
    ParseOfPrint(Pack(q));
  }

  lemma QuadInPlaces(a: nat, b: nat, c: nat, d: nat)
    requires a < 256 && b < 256 && c < 256 && d < 256
    ensures Pack([a, b, c, d]) == 16777216 * a + 65536 * b + 256 * c + d
    ensures QuadText([a, b, c, d]) ==
            Numeral(10, a) + "." + Numeral(10, b) + "." + Numeral(10, c) + "." + Numeral(10, d)
  {
    hide Numeral;
  }

  /** The texts that are accepted, written out, with the addresses they stand for: first octet
      most significant. Printing gives the text back. */
  lemma AddressOfText(a: nat, b: nat, c: nat, d: nat, s: string, v: nat)
    requires a < 256 && b < 256 && c < 256 && d < 256
    requires s == Numeral(10, a) + "." + Numeral(10, b) + "." + Numeral(10, c) + "." + Numeral(10, d)
    requires v == 16777216 * a + 65536 * b + 256 * c + d
    ensures v < 4294967296 && IsDottedQuad(s) && Pack(QuadOf(s)) == v && QuadText(Unpack(v)) == s
  {
    hide *;
    var q: Quad := [a, b, c, d];
    QuadInPlaces(a, b, c, d);
    assert QuadText(q) == s && Pack(q) == v;
    TextOfQuad(q);
  }

  /** No other texts are accepted. */
  lemma OctetsOfText(s: string) returns (a: nat, b: nat, c: nat, d: nat)
    requires IsDottedQuad(s)
    ensures a < 256 && b < 256 && c < 256 && d < 256
    ensures s == Numeral(10, a) + "." + Numeral(10, b) + "." + Numeral(10, c) + "." + Numeral(10, d)
  {
    hide *;
    var q := QuadOf(s);
    PrintOfParse(s);
    UnpackPack(q);
    a, b, c, d := q[0], q[1], q[2], q[3];
    QuadInPlaces(a, b, c, d);
    assert q == [a, b, c, d];
  }

  /** What else the Zig parser takes and refuses in an octet: signs, but no negative number, and
      underscores, but only inside. A leading zero passes behind a sign. */
  lemma ZigOddOctets(v: nat)
    requires v < 10
    ensures var d := ["0123456789"[v]];
            && ZigOctet(d) == Some(v) && ZigOctet("+" + d) == Some(v) && ZigOctet("+0" + d) == Some(v)
            && (ZigOctet("-" + d) == if v == 0 then Some(0) else None)
            && ZigOctet("1_" + d) == Some(10 + v) && ZigOctet("_" + d) == None && ZigOctet(d + "_") == None
            && ZigOctet("0" + d) == None
    ensures ZigOctet("") == None && ZigOctet("+") == None && ZigOctet("-") == None
  {
    hide *;
    var c := "0123456789"[v];
    DigitsAre(v);
    assert c == "0123456789abcdef"[v];
    DigitsAre(0);
    DigitsAre(1);
    TwoDigits('0', c);
    SignedBody("+", [c]);
    SignedBody("-", [c]);
    assert "+0" + [c] == "+" + ['0', c];
    SignedBody("+", ['0', c]);
    NoBody();
    Underscored(c);
    PlainDigit(c);
  }

  lemma NoBody()
    ensures ZigOctet("") == None && ZigOctet("+") == None && ZigOctet("-") == None
  {
    assert "+"[1..] == "" && "-"[1..] == "";
  }

  lemma PlainDigit(c: char)
    requires IsDigit(c)
    ensures ZigOctet([c]) == Some(DigitValue(c)) && ZigOctet("0" + [c]) == None
  {
    TwoDigits('0', c);
    hide ValueIn, StripUnderscores, IsNumberBody;
    assert "0" + [c] == ['0', c];
  }

  lemma TwoDigits(b: char, c: char)
    requires IsDigit(b) && IsDigit(c)
    ensures ValueIn(10, [b, c]) == 10 * DigitValue(b) + DigitValue(c) && ValueIn(10, [c]) == DigitValue(c)
    ensures StripUnderscores([b, c]) == [b, c] && StripUnderscores([c]) == [c]
    ensures IsNumberBody([b, c]) && IsNumberBody([c])
  {
    assert [b, c][..1] == [b] && [b][..0] == [] && [c][..0] == [];
    assert ValueIn(10, []) == 0;
    assert ValueIn(10, [b]) == 10 * ValueIn(10, []) + DigitValue(b);
    assert ValueIn(10, [c]) == 10 * ValueIn(10, []) + DigitValue(c);
    assert ValueIn(10, [b, c]) == 10 * ValueIn(10, [b]) + DigitValue(c);
    hide ValueIn, DigitValue;
  }

  lemma SignedBody(sign: string, body: string)
    requires sign == "+" || sign == "-"
    ensures ZigOctet(sign + body) ==
            if !IsNumberBody(body) || ValueIn(10, StripUnderscores(body)) > (if sign == "-" then 0 else 255) then None
            else Some(ValueIn(10, StripUnderscores(body)))
  {
    assert (sign + body)[1..] == body && (sign + body)[0] == sign[0];
    hide IsNumberBody, StripUnderscores, ValueIn;
  }

  lemma Underscored(c: char)
    requires IsDigit(c)
    ensures ZigOctet("1_" + [c]) == Some(10 + DigitValue(c))
    ensures ZigOctet("_" + [c]) == None && ZigOctet([c] + "_") == None
  {
    var s := ['1', '_', c];
    TwoDigits('1', c);
    assert "1_" + [c] == s && s[1..] == ['_', c] && ['_', c][1..] == [c];
    assert StripUnderscores(['_', c]) == StripUnderscores([c]) == [c];
    assert StripUnderscores(s) == ['1'] + [c] == ['1', c];
    hide ValueIn, StripUnderscores;
    assert IsNumberBody(s);
    assert "_" + [c] == ['_', c] && [c] + "_" == [c, '_'];
    assert !IsNumberBody(['_', c]) && !IsNumberBody([c, '_']);
  }

  predicate DigitsAndDots(s: string) {
    forall i :: 0 <= i < |s| ==> IsDigit(s[i]) || s[i] == '.'
  }

  lemma DigitOctetsAgree(p: string)
    requires AllDigits(p)
    ensures ZigOctet(p).Some? <==> IsOctet(p)
    ensures IsOctet(p) ==> ZigOctet(p) == Some(ValueIn(10, p))
  {
    hide ValueIn, StripUnderscores;
    DecimalWidth(p);
    if |p| > 0 {
      assert IsDigit(p[0]) && IsDigit(p[|p| - 1]);
      assert IsNumberBody(p);
    }
  }

  predicate DigitPieces(parts: seq<string>) {
    forall i :: 0 <= i < |parts| ==> AllDigits(parts[i])
  }

  lemma DigitPiecesCons(p: string, parts: seq<string>)
    ensures DigitPieces([p] + parts) <==> AllDigits(p) && DigitPieces(parts)
  {
    var all := [p] + parts;
    assert all[0] == p && forall i :: 0 <= i < |parts| ==> all[i + 1] == parts[i];
    if DigitPieces(all) {
      forall i | 0 <= i < |parts| ensures AllDigits(parts[i]) { assert AllDigits(all[i + 1]); }
    }
  }

  lemma {:induction false} PiecesOfDigitsAndDots(s: string)
    ensures DigitsAndDots(s) <==> DigitPieces(Split(s, '.'))
  {
    if s != [] {
      PiecesOfDigitsAndDots(s[1..]);
      var rest := Split(s[1..], '.');
      assert s == [s[0]] + s[1..];
      assert DigitsAndDots(s) <==> (IsDigit(s[0]) || s[0] == '.') && DigitsAndDots(s[1..]);
      if s[0] == '.' {
        DigitPiecesCons([], rest);
      } else {
        assert rest == [rest[0]] + rest[1..];
        DigitPiecesCons(rest[0], rest[1..]);
        DigitPiecesCons([s[0]] + rest[0], rest[1..]);
        AllDigitsCons(s[0], rest[0]);
      }
    }
  }

  /** The C parser accepts exactly what the Zig parser accepts among texts of digits
      and dots, with the same value; the Zig parser alone also takes signs and underscores. */
  lemma CAndZigAgree(s: string)
    ensures IsDottedQuad(s) <==> ZigAccepts(s) && DigitsAndDots(s)
    ensures IsDottedQuad(s) ==> QuadOf(s) == ZigQuad(s)
  {
    var parts := Split(s, '.');
    PiecesOfDigitsAndDots(s);
    forall i | 0 <= i < |parts| && AllDigits(parts[i])
      ensures ZigOctet(parts[i]).Some? <==> IsOctet(parts[i])
      ensures IsOctet(parts[i]) ==> ZigOctet(parts[i]) == Some(ValueIn(10, parts[i]))
    {
      DigitOctetsAgree(parts[i]);
    }
    if IsDottedQuad(s) {
      assert forall i :: 0 <= i < 4 ==> IsOctet(parts[i]);
      assert forall i :: 0 <= i < 4 ==> QuadOf(s)[i] == ZigQuad(s)[i];
    }
  }

  /** Where they part: a plus sign in front of any accepted address. */
  lemma ZigTakesPlus(s: string)
    requires IsDottedQuad(s)
    ensures ZigAccepts("+" + s) && ZigQuad("+" + s) == QuadOf(s)
    ensures !IsDottedQuad("+" + s)
  {
    var parts, t := Split(s, '.'), "+" + s;
    assert Split(t, '.') == ["+" + parts[0]] + parts[1..] by {
      assert t[1..] == s && t[0] == '+';
    }
    forall i | 0 <= i < 4 ensures ZigOctet(Split(t, '.')[i]) == Some(QuadOf(s)[i]) {
      assert IsOctet(parts[i]);
      if i == 0 {
        PlusOctet(parts[0]);
      } else {
        DigitOctetsAgree(parts[i]);
      }
    }
    assert !DigitsAndDots(t) by {
      assert t[0] == '+';
    }
    CAndZigAgree(t);
  }

  lemma PlusOctet(p: string)
    requires IsOctet(p)
    ensures ZigOctet("+" + p) == Some(ValueIn(10, p))
  {
    hide ValueIn, StripUnderscores;
    var o := "+" + p;
    assert o[0] == '+' && o[1..] == p;
    assert IsDigit(p[0]) && IsDigit(p[|p| - 1]);
    assert IsNumberBody(p);
  }
}
