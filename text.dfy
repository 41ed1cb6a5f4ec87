/**
 * Text helpers shared by the line parsers: splitting on a separator character
 * (Rust's `str::split` with a `char` pattern), decimal digit strings and the
 * numbers `str::parse` reads from them.
 */
module Text {

  /** True of the ASCII decimal digits. */
  predicate IsDigit(c: char) {
    '0' <= c <= '9'
  }

  /**
   * A non-empty run of decimal digits. `str::parse::<u64>` also accepts a
   * leading `+`, which the model does not.
   */
  predicate IsDigits(s: string) {
    |s| > 0 && forall i :: 0 <= i < |s| ==> IsDigit(s[i])
  }

  /** An optional sign followed by digits: what `str::parse::<i64>` accepts. */
  predicate IsIntLiteral(s: string) {
    IsDigits(s) || (|s| > 1 && (s[0] == '-' || s[0] == '+') && IsDigits(s[1..]))
  }

  function DigitValue(c: char): (d: nat)
    requires IsDigit(c)
    ensures d < 10
  {
    (c as int) - ('0' as int)
  }

  function DigitChar(d: nat): (c: char)
    requires d < 10
    ensures IsDigit(c) && DigitValue(c) == d
  {
    (('0' as int) + d) as char
  }

  /** The value of a decimal digit string, most significant digit first. */
  function ParseNat(s: string): nat
    requires IsDigits(s)
    decreases |s|
  {
    if |s| == 1 then DigitValue(s[0])
    else ParseNat(s[..|s| - 1]) * 10 + DigitValue(s[|s| - 1])
  }

  /** The value of a signed decimal literal. */
  function ParseInt(s: string): int
    requires IsIntLiteral(s)
  {
    if IsDigits(s) then ParseNat(s)
    else if s[0] == '-' then -(ParseNat(s[1..]) as int)
    else ParseNat(s[1..])
  }

  /** The shortest decimal rendering of `n`, as Rust's `Display` writes it. */
  function ShowNat(n: nat): (s: string)
    ensures IsDigits(s)
    decreases n
  {
    if n < 10 then [DigitChar(n)] else ShowNat(n / 10) + [DigitChar(n % 10)]
  }

  function ShowInt(i: int): (s: string)
    ensures IsIntLiteral(s)
  {
    if i < 0 then "-" + ShowNat(-i) else ShowNat(i)
  }

  /** Parsing what `ShowNat` writes gives the number back. */
  lemma {:induction false} ParseShowNat(n: nat)
    ensures ParseNat(ShowNat(n)) == n
    decreases n
  {
    if n >= 10 {
      var s := ShowNat(n);
      assert s[..|s| - 1] == ShowNat(n / 10);
      ParseShowNat(n / 10);
    }
  }

  /** Parsing what `ShowInt` writes gives the number back. */
  lemma ParseShowInt(i: int)
    ensures ParseInt(ShowInt(i)) == i
  {
    ParseShowNat(if i < 0 then -i else i);
    if i < 0 {
      var s := ShowInt(i);
      assert s[1..] == ShowNat(-i);
      assert !IsDigits(s) by { assert !IsDigit(s[0]); }
    }
  }

  /**
   * `s.split(sep)`: the pieces between consecutive separators, always at least
   * one piece (the empty string splits into one empty piece).
   */
  function Split(s: string, sep: char): (pieces: seq<string>)
    ensures |pieces| > 0
    ensures forall k :: 0 <= k < |pieces| ==> sep !in pieces[k]
    ensures Join(pieces, sep) == s
    decreases |s|
  {
    if s == [] then [[]]
    else
      var rest := Split(s[1..], sep);
      if s[0] == sep then [[]] + rest
      else [[s[0]] + rest[0]] + rest[1..]
  }

  /** The inverse of `Split`: the pieces with one separator between neighbours. */
  function Join(pieces: seq<string>, sep: char): string
    requires |pieces| > 0
    decreases |pieces|
  {
    if |pieces| == 1 then pieces[0] else pieces[0] + [sep] + Join(pieces[1..], sep)
  }

  /** Splitting a joined list of separator-free pieces gives the pieces back. */
  lemma {:induction false} SplitJoin(pieces: seq<string>, sep: char)
    requires |pieces| > 0
    requires forall k :: 0 <= k < |pieces| ==> sep !in pieces[k]
    ensures Split(Join(pieces, sep), sep) == pieces
    decreases |pieces|, |pieces[0]|
  {
    if |pieces[0]| > 0 {
      var p := pieces[0];
      var tail := [p[1..]] + pieces[1..];
      SplitJoin(tail, sep);
      assert Join(pieces, sep)[1..] == Join(tail, sep) by {
        if |pieces| > 1 {
          assert Join(tail, sep) == p[1..] + [sep] + Join(pieces[1..], sep);
        }
      }
      assert [p[0]] + p[1..] == p;
    } else if |pieces| > 1 {
      SplitJoin(pieces[1..], sep);
      assert Join(pieces, sep)[1..] == Join(pieces[1..], sep);
    }
  }

  /**
   * `filter(|w| !w.is_empty())`: the pieces that are not empty, in order.
   * A piece made only of other whitespace, such as a tab, is kept.
   */
  function DropEmpty(pieces: seq<string>): (r: seq<string>)
    ensures forall k :: 0 <= k < |r| ==> r[k] != [] && r[k] in pieces
    ensures (forall k :: 0 <= k < |pieces| ==> pieces[k] != []) ==> r == pieces
  {
    if pieces == [] then []
    else if pieces[0] == [] then DropEmpty(pieces[1..])
    else [pieces[0]] + DropEmpty(pieces[1..])
  }

  /** A signed literal holds only digits and a leading sign. */
  lemma IntLiteralOnly(s: string, c: char)
    requires IsIntLiteral(s) && !IsDigit(c) && c != '-' && c != '+'
    ensures c !in s
  {
    forall k | 0 <= k < |s| ensures s[k] != c {
      if k > 0 && !IsDigits(s) {
        assert s[k] == s[1..][k - 1];
      }
    }
  }

  /** The number of bytes UTF-8 uses to encode `c`. */
  function Utf8Width(c: char): (n: nat)
    ensures 1 <= n <= 4
    ensures n == 1 <==> (c as int) < 0x80
  {
    if (c as int) < 0x80 then 1
    else if (c as int) < 0x800 then 2
    else if (c as int) < 0x1_0000 then 3
    else 4
  }

  /**
   * `str::len`: the length of `s` in UTF-8 bytes. It is the number of
   * characters exactly when every character is ASCII, and more otherwise.
   */
  function Utf8Len(s: string): (n: nat)
    ensures |s| <= n <= 4 * |s|
    ensures n == |s| <==> forall k :: 0 <= k < |s| ==> (s[k] as int) < 0x80
    decreases |s|
  {
    if s == [] then 0
    else
      var n := Utf8Len(s[..|s| - 1]) + Utf8Width(s[|s| - 1]);
      assert forall k :: 0 <= k < |s| - 1 ==> s[..|s| - 1][k] == s[k];
      n
  }
}
