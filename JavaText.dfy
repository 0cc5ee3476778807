/**
 * The few Java library operations the protocol engine leans on, stated exactly:
 * String.indexOf, String.split with a one-character delimiter, equalsIgnoreCase,
 * Integer.parseInt, String.format("%0nX"), the (byte) cast and int division.
 */
module JavaText {
  import opened Common

  const IntMin: int := -0x8000_0000
  const IntMax: int := 0x7FFF_FFFF

  /** `s.indexOf(c)`: the first position of `c` in `s`, or -1 when there is none. */
  function IndexOf(s: string, c: char): (r: int)
    ensures -1 <= r < |s|
    ensures r == -1 <==> c !in s
    ensures r >= 0 ==> s[r] == c && c !in s[..r]
  {
    if |s| == 0 then -1
    else if s[0] == c then 0
    else
      var k := IndexOf(s[1..], c);
      if k == -1 then -1 else k + 1
  }

  /** Every piece of `s` between delimiters `d`, empty pieces included (`|r|` is one more than the number of `d`s). */
  function Pieces(s: string, d: char): (r: seq<string>)
    ensures |r| >= 1
    decreases |s|
  {
    var i := IndexOf(s, d);
    if i < 0 then [s] else [s[..i]] + Pieces(s[i + 1..], d)
  }

  /** The pieces joined back together with `d` between consecutive pieces. */
  function JoinWith(ps: seq<string>, d: char): string
    requires |ps| >= 1
  {
    if |ps| == 1 then ps[0] else ps[0] + [d] + JoinWith(ps[1..], d)
  }

  /** `ps` with its trailing empty strings removed. */
  function StripTrailingEmpty(ps: seq<string>): (r: seq<string>)
    ensures r <= ps
    ensures r == [] || r[|r| - 1] != ""
    ensures forall i :: |r| <= i < |ps| ==> ps[i] == ""
  {
    if ps == [] then []
    else if ps[|ps| - 1] == "" then StripTrailingEmpty(ps[..|ps| - 1])
    else ps
  }

  /**
   * `s.split(d)` for a delimiter that is one ordinary character: a string without `d` gives
   * itself as the only element; otherwise the pieces with the trailing empty ones dropped.
   */
  function Split(s: string, d: char): seq<string>
  {
    if d !in s then [s] else StripTrailingEmpty(Pieces(s, d))
  }

  /** Each piece followed by `d`: the layout of an RFLink line ending in `;`. */
  function Terminated(ps: seq<string>, d: char): string
  {
    if ps == [] then "" else ps[0] + [d] + Terminated(ps[1..], d)
  }

  lemma {:induction false} PiecesNoDelimiter(s: string, d: char)
    ensures forall k :: 0 <= k < |Pieces(s, d)| ==> d !in Pieces(s, d)[k]
    decreases |s|
  {
    var i := IndexOf(s, d);
    if i >= 0 {
      PiecesNoDelimiter(s[i + 1..], d);
    }
  }

  /** Splitting and re-joining gives the line back. */
  lemma {:induction false} JoinPieces(s: string, d: char)
    ensures JoinWith(Pieces(s, d), d) == s
    decreases |s|
  {
    var i := IndexOf(s, d);
    if i >= 0 {
      var rest := Pieces(s[i + 1..], d);
      JoinPieces(s[i + 1..], d);
      var ps := [s[..i]] + rest;
      assert ps[0] == s[..i] && ps[1..] == rest;
      assert JoinWith(ps, d) == s[..i] + [d] + JoinWith(rest, d);
      assert s == s[..i] + [d] + s[i + 1..];
    }
  }

  /** Joining pieces free of `d` and splitting again gives the pieces back. */
  lemma {:induction false} PiecesJoin(ps: seq<string>, d: char)
    requires |ps| >= 1
    requires forall k :: 0 <= k < |ps| ==> d !in ps[k]
    ensures Pieces(JoinWith(ps, d), d) == ps
  {
    if |ps| > 1 {
      var s := JoinWith(ps, d);
      assert s == ps[0] + ([d] + JoinWith(ps[1..], d));
      PrefixIndex(ps[0], d, JoinWith(ps[1..], d));
      assert s[|ps[0]| + 1..] == JoinWith(ps[1..], d);
      assert s[..|ps[0]|] == ps[0];
      PiecesJoin(ps[1..], d);
    }
  }

  lemma PrefixIndex(p: string, d: char, rest: string)
    requires d !in p
    ensures IndexOf(p + [d] + rest, d) == |p|
  {
    var s := p + [d] + rest;
    assert s[..|p|] == p;
    assert s[|p|] == d;
  }

  /** A first piece free of `d` comes off the front of the pieces. */
  lemma PiecesCons(p: string, d: char, rest: string)
    requires d !in p
    ensures Pieces(p + [d] + rest, d) == [p] + Pieces(rest, d)
  {
    var s := p + [d] + rest;
    PrefixIndex(p, d, rest);
    assert s[..|p|] == p;
    assert s[|p| + 1..] == rest;
  }

  lemma {:induction false} TerminatedIsJoin(ps: seq<string>, d: char)
    ensures Terminated(ps, d) == JoinWith(ps + [""], d)
  {
    if ps != [] {
      TerminatedIsJoin(ps[1..], d);
      assert (ps + [""])[1..] == ps[1..] + [""];
    }
  }

  /**
   * A `;`-terminated line made of pieces free of `;` splits back into exactly those pieces,
   * provided the last one is not empty (Java drops trailing empty pieces).
   */
  lemma SplitTerminated(ps: seq<string>, d: char)
    requires |ps| >= 1 && ps[|ps| - 1] != ""
    requires forall k :: 0 <= k < |ps| ==> d !in ps[k]
    ensures Split(Terminated(ps, d), d) == ps
  {
    TerminatedIsJoin(ps, d);
    var all := ps + [""];
    forall k | 0 <= k < |all| ensures d !in all[k] { }
    PiecesJoin(all, d);
    assert Terminated(ps, d) == ps[0] + [d] + Terminated(ps[1..], d);
    assert d in Terminated(ps, d);
    assert StripTrailingEmpty(all) == StripTrailingEmpty(ps) by {
      assert all[..|all| - 1] == ps;
    }
  }

  /**
   * ASCII upper-casing, the case folding equalsIgnoreCase applies to the letters of RFLink tokens:
   * the folded form never holds a lower-case letter, and a character folds only to itself or to
   * its upper-case partner.
   */
  function ToUpperAscii(c: char): (u: char)
    ensures !('a' <= u <= 'z')
    ensures u == c || ('A' <= u <= 'Z' && u as int == c as int - 32)
  {
    if 'a' <= c <= 'z' then (c as int - 32) as char else c
  }

  /** `a.equalsIgnoreCase(b)` over ASCII case folding. */
  predicate EqualsIgnoreCase(a: string, b: string)
  {
    |a| == |b| && forall i :: 0 <= i < |a| ==> ToUpperAscii(a[i]) == ToUpperAscii(b[i])
  }

  /**
   * Case folding: a lower-case letter matches its upper-case form and nothing else, and a
   * character that is not a letter matches only itself.
   */
  lemma IgnoreCaseChars(c: char, d: char)
    ensures 'a' <= c <= 'z' ==> EqualsIgnoreCase([c], [(c as int - 32) as char])
    ensures EqualsIgnoreCase([c], [d]) <==>
      c == d || ('a' <= c <= 'z' && d as int == c as int - 32) || ('a' <= d <= 'z' && c as int == d as int - 32)
  {
    if EqualsIgnoreCase([c], [d]) {
      assert ToUpperAscii([c][0]) == ToUpperAscii([d][0]);
    }
  }

  /** `equalsIgnoreCase` is an equivalence: reflexive, symmetric and transitive. */
  lemma IgnoreCaseEquivalence(a: string, b: string, c: string)
    ensures EqualsIgnoreCase(a, a)
    ensures EqualsIgnoreCase(a, b) ==> EqualsIgnoreCase(b, a)
    ensures EqualsIgnoreCase(a, b) && EqualsIgnoreCase(b, c) ==> EqualsIgnoreCase(a, c)
  {
  }

  /** The value of a digit in radix up to 36 (`Character.digit` on ASCII), or -1. */
  function DigitValue(c: char): (v: int)
    ensures -1 <= v < 36
  {
    if '0' <= c <= '9' then c as int - '0' as int
    else if 'a' <= c <= 'z' then c as int - 'a' as int + 10
    else if 'A' <= c <= 'Z' then c as int - 'A' as int + 10
    else -1
  }

  predicate AllDigits(s: string, radix: nat)
  {
    forall i :: 0 <= i < |s| ==> 0 <= DigitValue(s[i]) < radix
  }

  /** The positional value of a digit string, most significant digit first. */
  function DigitsValue(s: string, radix: nat): nat
    requires AllDigits(s, radix)
  {
    if s == [] then 0 else DigitsValue(s[..|s| - 1], radix) * radix + DigitValue(s[|s| - 1])
  }

  /**
   * `Integer.parseInt(s, radix)`: an optional sign, at least one digit, and a value that fits
   * in 32 bits; None stands for the NumberFormatException.
   */
  function ParseInt(s: string, radix: nat): (r: Option<int>)
    requires 2 <= radix <= 36
    ensures r.Some? ==> IntMin <= r.value <= IntMax
    ensures s == [] ==> r.None?
  {
    if |s| == 0 then None
    else
      var signed := s[0] == '-' || s[0] == '+';
      var digits := if signed then s[1..] else s;
      if |digits| == 0 || !AllDigits(digits, radix) then None
      else
        var magnitude: int := DigitsValue(digits, radix);
        var v: int := if s[0] == '-' then -magnitude else magnitude;
        if IntMin <= v <= IntMax then Some(v) else None
  }

  /** A string of digits only (no sign) never parses to a negative number. */
  lemma ParseDigitsNonNegative(s: string, radix: nat)
    requires 2 <= radix <= 36
    requires |s| > 0 && AllDigits(s, radix)
    ensures ParseInt(s, radix).Some? ==> ParseInt(s, radix).value >= 0
  {
    assert DigitValue(s[0]) >= 0;
  }

  /** A character that is neither a digit of the radix nor a leading sign makes the parse fail. */
  lemma ParseRejectsNonDigit(s: string, radix: nat, i: nat)
    requires 2 <= radix <= 36
    requires i < |s| && !(0 <= DigitValue(s[i]) < radix)
    requires i == 0 ==> s[0] != '-' && s[0] != '+'
    ensures ParseInt(s, radix).None?
  {
    var signed := s[0] == '-' || s[0] == '+';
    var digits := if signed then s[1..] else s;
    if signed {
      assert digits[i - 1] == s[i];
    } else {
      assert digits[i] == s[i];
    }
  }

  /** The digit of value `v` as `String.format("%X")` writes it (upper case). */
  function DigitChar(v: nat): (c: char)
    requires v < 36
    ensures DigitValue(c) == v
  {
    if v < 10 then ('0' as int + v) as char else ('A' as int + v - 10) as char
  }

  /** The digits of `n` in `radix` with no leading zero (`Integer.toString(n, radix)`, upper case). */
  function FormatDigits(n: nat, radix: nat): (s: string)
    requires 2 <= radix <= 36
    ensures |s| >= 1 && AllDigits(s, radix)
    decreases n
  {
    if n < radix then [DigitChar(n)]
    else
      DivMod(n, radix);
      FormatDigits(n / radix, radix) + [DigitChar(n % radix)]
  }

  function Zeros(k: nat): (z: string)
    ensures |z| == k && forall i :: 0 <= i < k ==> z[i] == '0'
  {
    if k == 0 then "" else Zeros(k - 1) + "0"
  }

  /** `String.format("%0<width>X", n)`: hexadecimal, upper case, left-padded with zeros to `width`. */
  function FormatHex(n: nat, width: nat): (s: string)
    ensures |s| >= width && AllDigits(s, 16)
  {
    var digits := FormatDigits(n, 16);
    if |digits| >= width then digits else Zeros(width - |digits|) + digits
  }

  lemma {:induction false} FormatDigitsValue(n: nat, radix: nat)
    requires 2 <= radix <= 36
    ensures DigitsValue(FormatDigits(n, radix), radix) == n
    decreases n
  {
    if n >= radix {
      var q, m := n / radix, n % radix;
      assert q < n && n == q * radix + m by { DivMod(n, radix); }
      var front := FormatDigits(q, radix);
      assert FormatDigits(n, radix) == front + [DigitChar(m)];
      FormatDigitsValue(q, radix);
      DigitsValueSnoc(front, DigitChar(m), radix);
    }
  }

  lemma DigitsValueSnoc(front: string, c: char, radix: nat)
    requires AllDigits(front, radix) && 0 <= DigitValue(c) < radix
    ensures AllDigits(front + [c], radix)
    ensures DigitsValue(front + [c], radix) == DigitsValue(front, radix) * radix + DigitValue(c)
  {
    assert (front + [c])[..|front|] == front;
  }

  lemma DivMod(n: nat, radix: nat)
    requires radix >= 2
    ensures n == (n / radix) * radix + n % radix
    ensures n >= radix ==> n / radix < n
  {
  }

  lemma {:induction false} LeadingZerosValue(k: nat, s: string, radix: nat)
    requires 2 <= radix <= 36 && AllDigits(s, radix)
    ensures AllDigits(Zeros(k) + s, radix)
    ensures DigitsValue(Zeros(k) + s, radix) == DigitsValue(s, radix)
    decreases |s|
  {
    var z := Zeros(k) + s;
    assert AllDigits(z, radix) by {
      forall i | 0 <= i < |z| ensures 0 <= DigitValue(z[i]) < radix {
        if i >= k { assert z[i] == s[i - k]; }
      }
    }
    if s == [] {
      assert z == Zeros(k);
      ZerosValue(k, radix);
    } else {
      assert z[..|z| - 1] == Zeros(k) + s[..|s| - 1];
      LeadingZerosValue(k, s[..|s| - 1], radix);
    }
  }

  lemma {:induction false} ZerosValue(k: nat, radix: nat)
    requires 2 <= radix <= 36
    ensures AllDigits(Zeros(k), radix) && DigitsValue(Zeros(k), radix) == 0
  {
    if k > 0 {
      var z := Zeros(k);
      assert z[..k - 1] == Zeros(k - 1);
      ZerosValue(k - 1, radix);
      assert DigitValue(z[k - 1]) == 0;
      assert DigitsValue(z, radix) == DigitsValue(Zeros(k - 1), radix) * radix + 0;
    }
  }

  /** Round trip: what `%0nX` writes, `Integer.parseInt(…, 16)` reads back. */
  lemma ParseFormatHex(n: nat, width: nat)
    requires n <= IntMax
    ensures ParseInt(FormatHex(n, width), 16) == Some(n)
  {
    var digits := FormatDigits(n, 16);
    FormatDigitsValue(n, 16);
    var s := FormatHex(n, width);
    if |digits| < width {
      LeadingZerosValue(width - |digits|, digits, 16);
    }
    assert DigitValue(s[0]) >= 0;
  }

  /** Round trip in decimal: `Integer.parseInt(Integer.toString(n))` is `n`. */
  lemma ParseFormatDecimal(n: nat)
    requires n <= IntMax
    ensures ParseInt(FormatDigits(n, 10), 10) == Some(n)
  {
    FormatDigitsValue(n, 10);
    var s := FormatDigits(n, 10);
    assert DigitValue(s[0]) >= 0;
  }

  /** `(byte) v`: the 32-bit value truncated to its low 8 bits, read as two's complement. */
  function ToByte(v: int): (b: int)
    ensures -128 <= b <= 127
    ensures (b - v) % 256 == 0
  {
    (v + 128) % 256 - 128
  }

  /**
   * Java's `a / b` for a positive divisor: the quotient is truncated toward zero, so the
   * remainder takes the sign of the dividend and is smaller than the divisor.
   */
  function JavaDiv(a: int, b: int): (q: int)
    requires b > 0
    ensures a >= 0 ==> 0 <= a - q * b < b
    ensures a < 0 ==> -b < a - q * b <= 0
  {
    if a >= 0 then DivRemainder(a, b); a / b
    else DivRemainder(-a, b); -((-a) / b)
  }

  /** Euclidean division of a non-negative number leaves a remainder below the divisor. */
  lemma DivRemainder(n: nat, b: int)
    requires b > 0
    ensures 0 <= n - (n / b) * b < b
  {
    assert n == (n / b) * b + n % b;
  }
}
