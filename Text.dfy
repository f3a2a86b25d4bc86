/** String helpers: Python's `str.split` on one delimiter character, its inverse
    `delimiter.join`, and the zero-padded decimal fields used by `strftime`. */
module Text {

  /** `delimiter.join(parts)` for a non-empty list of parts. */
  function Join(parts: seq<string>, delimiter: char): (r: string)
    requires |parts| >= 1
  {
    if |parts| == 1 then parts[0] else parts[0] + [delimiter] + Join(parts[1..], delimiter)
  }

  /** `s.split(delimiter)`: the maximal delimiter-free pieces of `s`, in order.
      There is always at least one piece; there is exactly one when the delimiter
      does not occur, and joining the pieces gives `s` back. */
  function Split(s: string, delimiter: char): (pieces: seq<string>)
    ensures |pieces| >= 1
    ensures (|pieces| == 1) == (delimiter !in s)
    ensures forall i :: 0 <= i < |pieces| ==> delimiter !in pieces[i]
    ensures Join(pieces, delimiter) == s
    decreases |s|
  {
    if |s| == 0 then [""]
    else
      var rest := Split(s[1..], delimiter);
      if s[0] == delimiter then
        assert s == [delimiter] + s[1..];
        [""] + rest
      else
        assert s == [s[0]] + s[1..];
        assert rest == [rest[0]] + rest[1..];
        [[s[0]] + rest[0]] + rest[1..]
  }

  lemma {:induction false} SplitNoDelimiter(s: string, delimiter: char)
    requires delimiter !in s
    ensures Split(s, delimiter) == [s]
  {
    // |Split(s)| == 1 and the single piece joins back to s
  }

  /** A delimiter-free prefix followed by the delimiter always becomes the first piece. */
  lemma {:induction false} SplitPrefix(prefix: string, delimiter: char, rest: string)
    requires delimiter !in prefix
    ensures Split(prefix + [delimiter] + rest, delimiter) == [prefix] + Split(rest, delimiter)
    decreases |prefix|
  {
    var s := prefix + [delimiter] + rest;
    if prefix != [] {
      assert s[0] == prefix[0];
      assert s[1..] == prefix[1..] + [delimiter] + rest;
      SplitPrefix(prefix[1..], delimiter, rest);
      assert [prefix[0]] + prefix[1..] == prefix;
    } else {
      assert s[1..] == rest;
    }
  }

  /** A character absent from `s` is absent from each of its pieces. */
  lemma SplitPiecesWithin(s: string, delimiter: char, k: nat)
    requires k < |Split(s, delimiter)|
    ensures forall c :: c !in s ==> c !in Split(s, delimiter)[k]
  {
    var pieces := Split(s, delimiter);
    forall c | c !in s
      ensures c !in pieces[k]
    {
      if c in pieces[k] {
        JoinContains(pieces, delimiter, k, c);
      }
    }
  }

  lemma {:induction false} JoinContains(parts: seq<string>, delimiter: char, k: nat, c: char)
    requires k < |parts|
    requires c in parts[k]
    ensures c in Join(parts, delimiter)
  {
    if |parts| > 1 && k > 0 {
      JoinContains(parts[1..], delimiter, k - 1, c);
    }
  }

  lemma {:induction false} JoinExcludes(parts: seq<string>, delimiter: char, c: char)
    requires |parts| >= 1
    requires c != delimiter
    requires forall i :: 0 <= i < |parts| ==> c !in parts[i]
    ensures c !in Join(parts, delimiter)
  {
    if |parts| > 1 {
      JoinExcludes(parts[1..], delimiter, c);
    }
  }

  /** Splitting undoes joining when no part contains the delimiter. */
  lemma {:induction false} SplitJoin(parts: seq<string>, delimiter: char)
    requires |parts| >= 1
    requires forall i :: 0 <= i < |parts| ==> delimiter !in parts[i]
    ensures Split(Join(parts, delimiter), delimiter) == parts
  {
    if |parts| == 1 {
      SplitNoDelimiter(parts[0], delimiter);
    } else {
      SplitPrefix(parts[0], delimiter, Join(parts[1..], delimiter));
      SplitJoin(parts[1..], delimiter);
      assert [parts[0]] + parts[1..] == parts;
    }
  }

  predicate IsDigit(c: char) {
    '0' <= c <= '9'
  }

  predicate AllDigits(s: string) {
    forall i :: 0 <= i < |s| ==> IsDigit(s[i])
  }

  function Pow10(n: nat): (r: nat)
    ensures r >= 1
  {
    if n == 0 then 1 else 10 * Pow10(n - 1)
  }

  function DigitChar(d: nat): (c: char)
    requires d < 10
    ensures IsDigit(c) && c as int - '0' as int == d
  {
    ('0' as int + d) as char
  }

  /** The number a string of decimal digits denotes; it is below 10^|s|. */
  function DigitsValue(s: string): (n: nat)
    requires AllDigits(s)
    ensures n < Pow10(|s|)
  {
    if |s| == 0 then 0
    else DigitsValue(s[..|s| - 1]) * 10 + (s[|s| - 1] as int - '0' as int)
  }

  /** `n` written in decimal, zero-padded on the left to exactly `width` digits,
      as `%02d` and `%04d` do. */
  function Pad(n: nat, width: nat): (s: string)
    requires n < Pow10(width)
    ensures |s| == width
  {
    if width == 0 then "" else Pad(n / 10, width - 1) + [DigitChar(n % 10)]
  }

  /** The padded rendering is all digits and reads back as the number. */
  lemma {:induction false} PadDigits(n: nat, width: nat)
    requires n < Pow10(width)
    ensures AllDigits(Pad(n, width)) && DigitsValue(Pad(n, width)) == n
  {
    if width > 0 {
      var s := Pad(n, width);
      PadDigits(n / 10, width - 1);
      assert s[..|s| - 1] == Pad(n / 10, width - 1);
    }
  }

  lemma DivModTen(q: nat, d: nat)
    requires d < 10
    ensures (q * 10 + d) / 10 == q && (q * 10 + d) % 10 == d
  {
    var n := q * 10 + d;
    assert n == 10 * q + d;
  }

  /** Padding the value of a digit string to its own length gives the string back:
      a fixed-width decimal field has exactly one spelling per value. */
  lemma {:induction false} PadDigitsValue(s: string)
    requires AllDigits(s)
    ensures Pad(DigitsValue(s), |s|) == s
  {
    if |s| > 0 {
      var init := s[..|s| - 1];
      assert AllDigits(init);
      var v := DigitsValue(init);
      var d := s[|s| - 1] as int - '0' as int;
      DivModTen(v, d);
      PadDigitsValue(init);
      assert DigitChar(d) == s[|s| - 1];
      assert s == init + [s[|s| - 1]];
    }
  }
}
