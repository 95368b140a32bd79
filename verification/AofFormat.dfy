/**
 The append-only file on the byte level: commands as arrays of bulk strings of
 the Redis serialization protocol, with decimal counts and lengths.
 */
module AofFormat {

  import opened Sds

  type Argv = seq<string>

  // ---------------------------------------------------------------------------
  // Decimal numbers
  // ---------------------------------------------------------------------------

  predicate IsDigit(c: char) { '0' <= c <= '9' }

  function Digit(n: nat): (c: char)
    requires n < 10
    ensures IsDigit(c) && DigitValue(c) == n
  {
    (n + '0' as int) as char
  }

  function DigitValue(c: char): (n: nat)
    requires IsDigit(c)
    ensures n < 10
  {
    c as int - '0' as int
  }

  function Decimal(n: nat): (s: string)
    ensures s != "" && forall i :: 0 <= i < |s| ==> IsDigit(s[i])
    ensures n > 0 ==> s[0] != '0'
  {
    if n < 10 then [Digit(n)] else Decimal(n / 10) + [Digit(n % 10)]
  }

  /** How many characters at the start of s are digits. */
  function DigitCount(s: string): (n: nat)
    ensures n <= |s|
    ensures forall i :: 0 <= i < n ==> IsDigit(s[i])
    ensures n < |s| ==> !IsDigit(s[n])
  {
    if s == "" || !IsDigit(s[0]) then 0 else 1 + DigitCount(s[1..])
  }

  function Value(s: string): nat
    requires forall i :: 0 <= i < |s| ==> IsDigit(s[i])
  {
    if s == "" then 0 else 10 * Value(s[..|s| - 1]) + DigitValue(s[|s| - 1])
  }

  /** The number a string starts with, read the way atoi and strtol do: blanks, a sign, digits. */
  function Number(s: string): int {
    if s == "" then 0
    else if s[0] == ' ' || '\t' <= s[0] <= '\r' then Number(s[1..])
    else if s[0] == '-' then -(Value(s[1..][..DigitCount(s[1..])]) as int)
    else if s[0] == '+' then Value(s[1..][..DigitCount(s[1..])])
    else Value(s[..DigitCount(s)])
  }

  lemma {:induction false} ValueOfDecimal(n: nat)
    ensures Value(Decimal(n)) == n
  {
    if n >= 10 {
      ValueOfDecimal(n / 10);
      assert Decimal(n)[..|Decimal(n)| - 1] == Decimal(n / 10);
    }
  }

  lemma {:induction false} DigitCountOf(d: string, rest: string)
    requires forall i :: 0 <= i < |d| ==> IsDigit(d[i])
    requires rest == "" || !IsDigit(rest[0])
    ensures DigitCount(d + rest) == |d| && (d + rest)[..|d|] == d
  {
    var s := d + rest;
    assert forall i :: 0 <= i < |d| ==> s[i] == d[i];
    assert rest != "" ==> s[|d|] == rest[0];
  }

  /** A number that is followed by anything but a digit reads back. */
  lemma {:induction false} NumberOfDecimal(n: nat, rest: string)
    requires rest == "" || !IsDigit(rest[0])
    ensures Number(Decimal(n) + rest) == n
  {
    var s := Decimal(n) + rest;
    DigitCountOf(Decimal(n), rest);
    ValueOfDecimal(n);
  }

  lemma {:induction false} ValuePositive(s: string)
    requires s != "" && s[0] != '0'
    requires forall i :: 0 <= i < |s| ==> IsDigit(s[i])
    ensures Value(s) >= 1
  {
    if |s| > 1 {
      ValuePositive(s[..|s| - 1]);
    }
  }

  /** Even a decimal cut short reads as a positive number, and never as a larger one. */
  lemma {:induction false} NumberOfCutDecimal(n: nat, k: nat, rest: string)
    requires n > 0 && 0 < k <= |Decimal(n)|
    requires rest == "" || !IsDigit(rest[0])
    ensures Number(Decimal(n)[..k] + rest) >= 1
  {
    var d := Decimal(n)[..k];
    var s := d + rest;
    DigitCountOf(d, rest);
    ValuePositive(d);
  }

  function Pow10(k: nat): nat { if k == 0 then 1 else 10 * Pow10(k - 1) }

  lemma {:induction false} DecimalLength(n: nat, k: nat)
    requires n < Pow10(k) && k > 0
    ensures |Decimal(n)| <= k
  {
    if n >= 10 {
      DecimalLength(n / 10, k - 1);
    }
  }

  const MAX_INT := 0x7fff_ffff
  const MAX_LONG := 0x7fff_ffff_ffff_ffff

  lemma DecimalFitsLine(n: nat)
    requires n <= MAX_LONG
    ensures |Decimal(n)| <= 19
  {
    assert Pow10(4) == 10000 && Pow10(8) == 10000 * 10000 && Pow10(12) == 10000 * Pow10(8);
    assert Pow10(16) == 10000 * Pow10(12) && Pow10(19) == 1000 * Pow10(16);
    DecimalLength(n, 19);
  }

  // ---------------------------------------------------------------------------
  // Commands
  // ---------------------------------------------------------------------------

  const CRLF: string := "\r\n"

  /** Counts and lengths fit the integers the server uses. */
  predicate WellSized(argv: Argv) {
    && 1 <= |argv| <= MAX_INT
    && forall i :: 0 <= i < |argv| ==> |argv[i]| <= MAX_LONG
  }

  function Header(mark: char, n: nat): string { [mark] + Decimal(n) + CRLF }

  function Bulk(s: string): string { Header('$', |s|) + s + CRLF }

  /** The encodings of all elements, one after the other. */
  function Bulks(args: seq<string>): string { Flat(Bulk, args) }

  function EncodeCommand(argv: Argv): string { Header('*', |argv|) + Bulks(argv) }

  function Encode(cmds: seq<Argv>): string { Flat(EncodeCommand, cmds) }

  /** A count, and behind it every argument with its length, all of them lines. */
  lemma {:induction false} CommandText(a: string, b: string)
    requires |a| == 3 && |b| == 12
    ensures EncodeCommand([a, "", b]) == "*3\r\n$3\r\n" + a + "\r\n$0\r\n\r\n$12\r\n" + b + "\r\n"
  {
    assert Decimal(3) == "3" && Decimal(0) == "0" && Decimal(1) == "1" && Decimal(12) == "12";
    ThreeFlat(a, "", b);
    TextParts(a, b);
  }

  lemma ThreeFlat(a: string, b: string, c: string)
    ensures Bulks([a, b, c]) == Bulk(a) + (Bulk(b) + (Bulk(c) + ""))
  {
    hide Bulk;
    assert [a, b, c][1..] == [b, c] && [b, c][1..] == [c] && [c][1..] == [];
    assert Flat(Bulk, [c]) == Bulk(c) + "";
    assert Flat(Bulk, [b, c]) == Bulk(b) + Flat(Bulk, [c]);
  }

  lemma TextParts(a: string, b: string)
    requires |a| == 3 && |b| == 12 && Decimal(3) == "3" && Decimal(0) == "0" && Decimal(12) == "12"
    ensures Header('*', 3) + (Bulk(a) + (Bulk("") + (Bulk(b) + "")))
      == "*3\r\n$3\r\n" + a + "\r\n$0\r\n\r\n$12\r\n" + b + "\r\n"
  {
    hide Decimal;
  }

  /** Appends a command to a buffer, one argument after the other. */
  method CatCommand(dst: string, argv: Argv) returns (r: string)
    ensures r == dst + EncodeCommand(argv)
  {
    hide Header, Bulk;
    r := dst + Header('*', |argv|);
    assert argv[..0] == [];
    for j := 0 to |argv|
      invariant r == dst + Header('*', |argv|) + Bulks(argv[..j])
    {
      r := r + Bulk(argv[j]);
      FlatMore(Bulk, argv, j);
    }
    assert argv[..|argv|] == argv;
  }
}
