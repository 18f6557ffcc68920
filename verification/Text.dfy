/** The string operations the backend relies on, on ASCII text: `lower`,
    `upper`, `strip`, `split`, containment and decimal rendering.
 */
module Text {

  function LowerChar(c: char): char {
    if 'A' <= c <= 'Z' then c - 'A' + 'a' else c
  }

  function UpperChar(c: char): char {
    if 'a' <= c <= 'z' then c - 'a' + 'A' else c
  }

  function Lower(s: string): string {
    seq(|s|, i requires 0 <= i < |s| => LowerChar(s[i]))
  }

  function Upper(s: string): string {
    seq(|s|, i requires 0 <= i < |s| => UpperChar(s[i]))
  }

  predicate IsSpace(c: char) {
    c == ' ' || '\t' <= c <= '\r' || '\U{1C}' <= c <= '\U{1F}'
  }

  function StripLeft(s: string): (rest: string)
    ensures |rest| <= |s| && (rest != "" ==> !IsSpace(rest[0]))
  {
    if s != "" && IsSpace(s[0]) then StripLeft(s[1..]) else s
  }

  function StripRight(s: string): string {
    if s != "" && IsSpace(s[|s| - 1]) then StripRight(s[..|s| - 1]) else s
  }

  function Strip(s: string): string {
    StripRight(StripLeft(s))
  }

  lemma {:induction false} StripRightEnds(s: string)
    ensures StripRight(s) <= s
    ensures StripRight(s) != "" ==> !IsSpace(StripRight(s)[|StripRight(s)| - 1])
    ensures s != "" && !IsSpace(s[0]) ==> StripRight(s) != ""
  {
    if s != "" && IsSpace(s[|s| - 1]) {
      StripRightEnds(s[..|s| - 1]);
    }
  }

  /** Trimmed text stays trimmed in lower case. */
  lemma LowerStaysStripped(s: string)
    ensures Strip(Lower(Strip(s))) == Lower(Strip(s))
  {
    var left := StripLeft(s);
    StripRightEnds(left);
    var text := Strip(s);
    if text != "" {
      assert text[0] == left[0];
      assert !IsSpace(Lower(text)[0]) && !IsSpace(Lower(text)[|text| - 1]);
    }
  }

  predicate StartsWith(s: string, prefix: string) {
    prefix <= s
  }

  predicate Contains(s: string, part: string) {
    part <= s || (s != "" && Contains(s[1..], part))
  }

  lemma {:induction false} ContainsAt(s: string, part: string, i: nat)
    requires i <= |s| && part <= s[i..]
    ensures Contains(s, part)
  {
    if i > 0 {
      assert s[1..][i - 1..] == s[i..];
      ContainsAt(s[1..], part, i - 1);
    }
  }

  lemma {:induction false} LacksLetter(s: string, part: string, c: char)
    requires c in part && c !in s
    ensures !Contains(s, part)
  {
    if s != "" {
      LacksLetter(s[1..], part, c);
    }
    var i :| 0 <= i < |part| && part[i] == c;
  }

  /** The text before the first separator, or all of it. */
  function Before(s: string, separator: char): (piece: string)
    ensures piece <= s && separator !in piece
    ensures |piece| < |s| ==> s[|piece|] == separator
  {
    if s == "" || s[0] == separator then "" else [s[0]] + Before(s[1..], separator)
  }

  lemma {:induction false} BeforeStops(piece: string, separator: char, rest: string)
    requires separator !in piece
    requires rest == "" || rest[0] == separator
    ensures Before(piece + rest, separator) == piece
  {
    if piece == "" {
      assert piece + rest == rest;
    } else {
      BeforeStops(piece[1..], separator, rest);
      assert (piece + rest)[1..] == piece[1..] + rest;
    }
  }

  /** `s.split(separator)`: one piece more than there are separators. */
  function Split(s: string, separator: char): seq<string>
    decreases |s|
  {
    var piece := Before(s, separator);
    if |piece| < |s| then [piece] + Split(s[|piece| + 1..], separator) else [piece]
  }

  /** The text before the first white space. */
  function FirstWord(s: string): (word: string)
    ensures word <= s
    ensures s != "" && !IsSpace(s[0]) ==> word != ""
  {
    if s == "" || IsSpace(s[0]) then "" else [s[0]] + FirstWord(s[1..])
  }

  /** `s.split()`: the words between runs of white space. */
  function Words(s: string): seq<string>
    decreases |s|
  {
    var rest := StripLeft(s);
    var word := FirstWord(rest);
    if rest == "" then [] else [word] + Words(rest[|word|..])
  }

  predicate IsDigit(c: char) {
    '0' <= c <= '9'
  }

  function Decimal(n: nat): string {
    if n < 10 then ['0' + n as char] else Decimal(n / 10) + ['0' + (n % 10) as char]
  }

  function Value(digits: string): nat
    requires forall i :: 0 <= i < |digits| ==> IsDigit(digits[i])
  {
    if digits == "" then 0
    else
      var last := digits[|digits| - 1];
      assert IsDigit(last);
      10 * Value(digits[..|digits| - 1]) + (last - '0') as nat
  }

  lemma {:induction false} DecimalIsDigits(n: nat)
    ensures Decimal(n) != ""
    ensures forall i :: 0 <= i < |Decimal(n)| ==> IsDigit(Decimal(n)[i])
  {
    if n >= 10 {
      DecimalIsDigits(n / 10);
    }
  }

  lemma {:induction false} DecimalRoundTrip(n: nat)
    ensures (forall i :: 0 <= i < |Decimal(n)| ==> IsDigit(Decimal(n)[i])) && Value(Decimal(n)) == n
  {
    DecimalIsDigits(n);
    if n >= 10 {
      DecimalIsDigits(n / 10);
      DecimalRoundTrip(n / 10);
      assert Decimal(n)[..|Decimal(n)| - 1] == Decimal(n / 10);
    }
  }

  lemma {:induction false} LowerTwice(s: string)
    ensures Lower(Lower(s)) == Lower(s)
  {
  }

  /** A decimal suffix after the last dash can be read back. */
  lemma DashedDecimalInjective(a: string, m: nat, b: string, n: nat)
    requires a + "-" + Decimal(m) == b + "-" + Decimal(n)
    ensures a == b && m == n
  {
    DecimalIsDigits(m);
    DecimalIsDigits(n);
    var s := a + "-" + Decimal(m);
    assert s[|a|] == '-' && s[|b|] == '-';
    assert forall i :: |a| < i < |s| ==> s[i] == Decimal(m)[i - |a| - 1];
    assert forall i :: |b| < i < |s| ==> s[i] == Decimal(n)[i - |b| - 1];
    assert |a| == |b|;
    assert a == s[..|a|] && b == s[..|b|];
    assert Decimal(m) == s[|a| + 1..] && Decimal(n) == s[|b| + 1..];
    DecimalRoundTrip(m);
    DecimalRoundTrip(n);
  }
}
