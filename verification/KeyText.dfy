/**
  The text layer of the key dump: numerals, hexadecimal keys, words and lines, each with the
  reading that undoes the writing.
 */
module KeyText {
  import opened Common

  // ---- Digits.

  function DigitChar(d: nat): (c: char)
    requires d < 16
  {
    if d < 10 then '0' + d as char else 'A' + (d - 10) as char
  }

  /** `char::to_digit(16)`. */
  function DigitValue(c: char): (d: Option<nat>)
    ensures d.Some? ==> d.value < 16
  {
    if '0' <= c <= '9' then Some((c - '0') as nat)
    else if 'A' <= c <= 'F' then Some((c - 'A') as nat + 10)
    else if 'a' <= c <= 'f' then Some((c - 'a') as nat + 10)
    else None
  }

  lemma DigitRoundTrip(d: nat)
    requires d < 16
    ensures DigitValue(DigitChar(d)) == Some(d)
  {}

  predicate Space(c: char) { c == ' ' || '\t' <= c <= '\r' }

  /** A word: not empty, and no whitespace in it. */
  predicate Word(s: string) { s != "" && forall c <- s :: !Space(c) }

  lemma DigitIsWord(d: nat)
    requires d < 16
    ensures !Space(DigitChar(d)) && DigitChar(d) != '-' && DigitChar(d) != '+'
  {}

  // ---- Numerals.

  /** The decimal digits of a number, most significant first, without leading zeros. */
  function Decimal(n: nat): (s: string) {
    if n < 10 then [DigitChar(n)] else Decimal(n / 10) + [DigitChar(n % 10)]
  }

  /** The low `w` hexadecimal digits. */
  function HexPadded(n: nat, w: nat): (s: string)
    ensures |s| == w
  {
    if w == 0 then "" else HexPadded(n / 16, w - 1) + [DigitChar(n % 16)]
  }

  predicate Base(b: nat) { b == 10 || b == 16 }

  /** The digit `d` behind the number `n`. */
  function Append(n: nat, d: nat, base: nat): nat
    requires Base(base)
  {
    (if base == 10 then 10 * n else 16 * n) + d
  }

  /** The number a string of digits stands for. */
  function Value(s: string, base: nat): Option<nat>
    requires Base(base)
  {
    if s == "" then Some(0)
    else
      var high, low := Value(s[..|s| - 1], base), DigitValue(s[|s| - 1]);
      if high.Some? && low.Some? && low.value < base then Some(Append(high.value, low.value, base)) else None
  }

  lemma ValueStep(s: string, d: nat, base: nat)
    requires Base(base) && d < base && Value(s, base).Some?
    ensures Value(s + [DigitChar(d)], base) == Some(Append(Value(s, base).value, d, base))
  {
    DigitRoundTrip(d);
    assert (s + [DigitChar(d)])[..|s|] == s;
  }

  /** Digits only: no whitespace, no sign. */
  predicate Plain(s: string) { forall c <- s :: !Space(c) && c != '-' && c != '+' }

  lemma PlainStep(s: string, d: nat)
    requires Plain(s) && d < 16
    ensures Plain(s + [DigitChar(d)])
  {}

  lemma {:induction false} DecimalRoundTrip(n: nat)
    ensures Value(Decimal(n), 10) == Some(n)
    ensures Decimal(n) != "" && Plain(Decimal(n))
  {
    if n < 10 {
      ValueStep("", n, 10);
      PlainStep("", n);
      assert "" + [DigitChar(n)] == Decimal(n);
    } else {
      DecimalRoundTrip(n / 10);
      ValueStep(Decimal(n / 10), n % 10, 10);
      PlainStep(Decimal(n / 10), n % 10);
    }
  }

  lemma {:induction false} HexPaddedRoundTrip(n: nat, w: nat)
    requires n < Pow16(w)
    ensures Value(HexPadded(n, w), 16) == Some(n) && Plain(HexPadded(n, w))
  {
    if w > 0 {
      HexPaddedRoundTrip(n / 16, w - 1);
      ValueStep(HexPadded(n / 16, w - 1), n % 16, 16);
      PlainStep(HexPadded(n / 16, w - 1), n % 16);
    }
  }

  function Pow16(w: nat): nat { if w == 0 then 1 else 16 * Pow16(w - 1) }

  /** `{:08X}` of a 32-bit id. */
  function ShowId(x: U32): string { HexPadded(x, 8) }

  /** `u32::from_str_radix(s, 16)`. */
  function ParseId(s: string): Option<U32> {
    var digits := if |s| > 1 && s[0] == '+' then s[1..] else s;
    match Value(digits, 16)
    case Some(n) => if digits != "" && n < TWO32 then Some(n) else None
    case None => None
  }

  lemma IdRoundTrip(x: U32)
    ensures ParseId(ShowId(x)) == Some(x) && Word(ShowId(x))
  {
    assert Pow16(4) == 65536;
    assert Pow16(8) == TWO32;
    HexPaddedRoundTrip(x, 8);
    assert ShowId(x)[0] in ShowId(x);
  }

  /** `{}` of a signed 32-bit number. */
  function ShowInt(n: I32): string {
    var m: int := n;
    if m < 0 then "-" + Decimal(-m) else Decimal(m)
  }

  /** `str::parse::<i32>`. */
  function ParseInt(s: string): Option<I32> {
    var signed := |s| > 1 && (s[0] == '+' || s[0] == '-');
    var digits := if signed then s[1..] else s;
    match Value(digits, 10)
    case Some(n) =>
      var v: int := if signed && s[0] == '-' then 0 - (n as int) else n as int;
      if digits != "" && -TWO31 <= v < TWO31 then Some(v) else None
    case None => None
  }

  lemma IntRoundTrip(n: I32)
    ensures ParseInt(ShowInt(n)) == Some(n) && Word(ShowInt(n))
  {
    var m: int := n;
    if m < 0 { ReadNegative(n, -m); } else { ReadPositive(m); }
  }

  lemma ReadPositive(m: nat)
    requires m < TWO31
    ensures ParseInt(Decimal(m)) == Some(m) && Word(Decimal(m))
  {
    DecimalRoundTrip(m);
    assert Decimal(m)[0] in Decimal(m);
  }

  lemma ReadNegative(n: I32, m: nat)
    requires 0 < m && n + m == 0
    ensures ParseInt("-" + Decimal(m)) == Some(n) && Word("-" + Decimal(m))
  {
    var s := "-" + Decimal(m);
    DecimalRoundTrip(m);
    assert s[1..] == Decimal(m) && |s| > 1 && s[0] == '-';
  }

  // ---- Keys in hexadecimal.

  function BytesToHex(b: Bytes): (s: string)
    ensures |s| == 2 * |b|
  {
    if b == [] then "" else [DigitChar(b[0] / 16), DigitChar(b[0] % 16)] + BytesToHex(b[1..])
  }

  function HexToBytes(s: string): Option<Bytes> {
    if s == "" then Some([])
    else if |s| == 1 then None
    else
      var hi, lo, rest := DigitValue(s[0]), DigitValue(s[1]), HexToBytes(s[2..]);
      if hi.Some? && lo.Some? && rest.Some? then Some([hi.value * 16 + lo.value] + rest.value) else None
  }

  lemma {:induction false} HexRoundTrip(b: Bytes)
    ensures HexToBytes(BytesToHex(b)) == Some(b)
    ensures forall c <- BytesToHex(b) :: !Space(c)
  {
    if b != [] {
      DigitRoundTrip(b[0] / 16);
      DigitRoundTrip(b[0] % 16);
      DigitIsWord(b[0] / 16);
      DigitIsWord(b[0] % 16);
      HexRoundTrip(b[1..]);
      var first, rest := [DigitChar(b[0] / 16), DigitChar(b[0] % 16)], BytesToHex(b[1..]);
      assert BytesToHex(b) == first + rest && BytesToHex(b)[2..] == rest;
      assert b == [b[0]] + b[1..] && b[0] == b[0] / 16 * 16 + b[0] % 16;
      forall c | c in BytesToHex(b) ensures !Space(c) { assert c in first || c in rest; }
    }
  }

  // ---- Words and lines.

  /** The index of the first character that `stop` accepts, or the length. */
  function FirstStop(s: string, stop: char -> bool): (i: nat)
    ensures i <= |s|
    ensures forall j :: 0 <= j < i ==> !stop(s[j])
    ensures i < |s| ==> stop(s[i])
  {
    if s == "" || stop(s[0]) then 0 else 1 + FirstStop(s[1..], stop)
  }

  lemma {:induction false} StopIs(s: string, stop: char -> bool, i: nat)
    requires i <= |s| && (forall j :: 0 <= j < i ==> !stop(s[j])) && (i < |s| ==> stop(s[i]))
    ensures FirstStop(s, stop) == i
  {}

  /** `split_string`: the words between runs of whitespace. */
  function Words(s: string): seq<string> {
    if s == "" then []
    else
      var i := FirstStop(s, Space);
      (if i == 0 then [] else [s[..i]]) + if i == |s| then [] else Words(s[i + 1..])
  }

  lemma WordsOfWord(w: string)
    requires Word(w)
    ensures Words(w) == [w]
  {
    StopIs(w, Space, |w|);
    assert w[..|w|] == w;
  }

  lemma WordsStep(w: string, rest: string)
    requires Word(w)
    ensures Words(w + " " + rest) == [w] + Words(rest)
  {
    var s := w + " " + rest;
    StopIs(s, Space, |w|);
    assert s[..|w|] == w && s[|w| + 1..] == rest;
  }

  predicate Newline(c: char) { c == '\n' }

  function StripCr(s: string): string { if s != "" && s[|s| - 1] == '\r' then s[..|s| - 1] else s }

  /** `str::lines`. */
  function Lines(s: string): seq<string> {
    if s == "" then []
    else
      var i := FirstStop(s, Newline);
      if i == |s| then [s] else [StripCr(s[..i])] + Lines(s[i + 1..])
  }

  /** One line: no line break of any kind in it. */
  predicate Line(s: string) { forall c <- s :: c != '\n' && c != '\r' }

  lemma LineStops(line: string, rest: string)
    requires Line(line)
    ensures FirstStop(line + "\n" + rest, Newline) == |line|
    ensures StripCr(line) == line
  {
    var s := line + "\n" + rest;
    forall j | 0 <= j < |line| ensures !Newline(s[j]) { assert line[j] in line; }
    StopIs(s, Newline, |line|);
    if line != "" { assert line[|line| - 1] in line; }
  }

  lemma LinesStep(line: string, rest: string)
    requires Line(line)
    ensures Lines(line + "\n" + rest) == [line] + Lines(rest)
  {
    var s := line + "\n" + rest;
    LineStops(line, rest);
    assert s[..|line|] == line && s[|line| + 1..] == rest;
  }
}
