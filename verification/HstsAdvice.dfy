/** The HSTS header that the findings advise, read back by the detector.
 */
module HstsAdvice {
  import opened Wrappers
  import opened HeaderChecks
  import T = Text

  function Attributes(names: seq<string>): string {
    if names == [] then "" else "; " + names[0] + Attributes(names[1..])
  }

  /** "max-age=<seconds>; includeSubDomains; preload" and the like. */
  function Policy(maxAge: nat, names: seq<string>): string {
    "max-age=" + T.Decimal(maxAge) + Attributes(names)
  }

  predicate IsLetter(c: char) {
    'a' <= c <= 'z' || 'A' <= c <= 'Z'
  }

  predicate IsWord(name: string) {
    name != "" && forall i :: 0 <= i < |name| ==> IsLetter(name[i])
  }

  ghost predicate AreWords(names: seq<string>) {
    forall i :: 0 <= i < |names| ==> IsWord(names[i])
  }

  lemma {:induction false} DigitsStop(digits: string, rest: string)
    requires forall i :: 0 <= i < |digits| ==> T.IsDigit(digits[i])
    requires rest == "" || !T.IsDigit(rest[0])
    ensures Digits(digits + rest) == digits
  {
    if digits == "" {
      assert digits + rest == rest;
    } else {
      DigitsStop(digits[1..], rest);
      assert (digits + rest)[1..] == digits[1..] + rest;
    }
  }

  lemma SplitHead(piece: string, separator: char, rest: string)
    requires separator !in piece
    ensures T.Split(piece + [separator] + rest, separator) == [piece] + T.Split(rest, separator)
    ensures T.Split(piece, separator) == [piece]
  {
    T.BeforeStops(piece, separator, [separator] + rest);
    assert piece + [separator] + rest == piece + ([separator] + rest);
    assert (piece + [separator] + rest)[|piece| + 1..] == rest;
    T.BeforeStops(piece, separator, "");
    assert piece + "" == piece;
  }

  lemma LowerConcatenates(a: string, b: string)
    ensures T.Lower(a + b) == T.Lower(a) + T.Lower(b)
  {
  }

  lemma LowerJoins(a: string, b: string)
    ensures T.Lower(a + [';'] + b) == T.Lower(a) + [';'] + T.Lower(b)
  {
  }

  /** The segments between the semicolons, in lower case. */
  function Segments(names: seq<string>): seq<string> {
    if names == [] then [] else [T.Lower(" " + names[0])] + Segments(names[1..])
  }

  lemma {:induction false} SplitPolicy(piece: string, names: seq<string>)
    requires ';' !in piece && AreWords(names)
    ensures T.Split(T.Lower(piece + Attributes(names)), ';') == [T.Lower(piece)] + Segments(names)
    decreases |names|
  {
    if names == [] {
      LowerKeepsSemicolonsOut(piece);
      assert piece + "" == piece;
      SplitHead(T.Lower(piece), ';', "");
    } else {
      var next := " " + names[0];
      assert IsWord(names[0]);
      WordHasNoSemicolon(names[0]);
      SplitPolicy(next, names[1..]);
      var rest := next + Attributes(names[1..]);
      AttributesHead(piece, names);
      SplitLowered(piece, rest);
    }
  }

  lemma AttributesHead(piece: string, names: seq<string>)
    requires names != []
    ensures piece + Attributes(names) == piece + [';'] + (" " + names[0] + Attributes(names[1..]))
  {
    assert "; " == [';'] + " ";
  }

  lemma WordHasNoSemicolon(name: string)
    requires IsWord(name)
    ensures ';' !in " " + name
  {
    forall i | 0 <= i < |name| ensures name[i] != ';' {
      assert IsLetter(name[i]);
    }
  }

  lemma SplitLowered(piece: string, rest: string)
    requires ';' !in piece
    ensures T.Split(T.Lower(piece + [';'] + rest), ';') == [T.Lower(piece)] + T.Split(T.Lower(rest), ';')
  {
    LowerKeepsSemicolonsOut(piece);
    LowerJoins(piece, rest);
    SplitHead(T.Lower(piece), ';', T.Lower(rest));
  }

  lemma LowerKeepsSemicolonsOut(s: string)
    requires ';' !in s
    ensures ';' !in T.Lower(s)
  {
  }

  /* Reading the parts back. */

  lemma LowerWordNames(word: string, directive: string)
    requires word != "" && forall i :: 0 <= i < |word| ==> 'a' <= word[i] <= 'z'
    ensures Names(" " + word, directive) <==> word == directive
  {
    assert (" " + word)[1..] == word;
    assert T.StripLeft(" " + word) == word;
    assert T.StripRight(word) == word;
    assert T.Lower(word) == word;
    T.BeforeStops(word, '=', "");
    assert word + "" == word;
  }

  lemma WordNames(name: string, directive: string)
    requires IsWord(name)
    ensures Names(T.Lower(" " + name), directive) <==> T.Lower(name) == directive
  {
    var word := T.Lower(name);
    LowerConcatenates(" ", name);
    assert T.Lower(" ") == " ";
    forall i | 0 <= i < |word| ensures 'a' <= word[i] <= 'z' {
      assert IsLetter(name[i]);
    }
    LowerWordNames(word, directive);
  }

  lemma MaxAgeNames(digits: string, directive: string)
    requires digits != "" && forall i :: 0 <= i < |digits| ==> T.IsDigit(digits[i])
    ensures Names(T.Lower("max-age=" + digits), directive) <==> directive == "max-age"
  {
    var name := "max-age";
    var s := name + ['='] + digits;
    assert "max-age=" + digits == s;
    assert forall i :: 0 <= i < |s| ==> !('A' <= s[i] <= 'Z') && !T.IsSpace(s[i]);
    assert T.Lower(s) == s;
    assert T.Strip(s) == s;
    assert s == name + (['='] + digits);
    T.BeforeStops(name, '=', ['='] + digits);
  }

  lemma {:induction false} SegmentsName(names: seq<string>, directive: string)
    requires AreWords(names)
    ensures (exists segment :: segment in Segments(names) && Names(segment, directive))
            <==> exists name :: name in names && T.Lower(name) == directive
  {
    if names != [] {
      SegmentsName(names[1..], directive);
      WordNames(names[0], directive);
    }
  }

  lemma {:induction false} AttributesEndInLetter(names: seq<string>)
    requires AreWords(names) && names != []
    ensures Attributes(names)[0] == ';' && IsLetter(Attributes(names)[|Attributes(names)| - 1])
  {
    if |names| > 1 {
      AttributesEndInLetter(names[1..]);
    } else {
      assert Attributes(names[1..]) == "";
      assert IsLetter(names[0][|names[0]| - 1]);
    }
  }

  lemma PolicyIsStripped(maxAge: nat, names: seq<string>)
    requires AreWords(names)
    ensures T.Strip(Policy(maxAge, names)) == Policy(maxAge, names)
  {
    var p := Policy(maxAge, names);
    T.DecimalIsDigits(maxAge);
    assert p[0] == 'm';
    if names != [] {
      AttributesEndInLetter(names);
    }
    assert T.IsDigit(p[|p| - 1]) || IsLetter(p[|p| - 1]);
  }

  lemma MaxAgeBegins(p: string, digits: string, rest: string)
    requires p == "max-age=" + digits + rest
    requires digits != "" && forall i :: 0 <= i < |digits| ==> T.IsDigit(digits[i])
    requires rest == "" || rest[0] == ';'
    ensures MaxAgeHere(p) == Some(digits)
  {
    assert p == "max-age" + ("=" + (digits + rest));
    LowerConcatenates("max-age", "=" + (digits + rest));
    assert T.Lower("max-age") == "max-age";
    assert p[0] == 'm' && T.StripLeft(p) == p;
    var equals := p[7..];
    assert equals == "=" + (digits + rest) && T.StripLeft(equals) == equals;
    assert equals[1..] == digits + rest;
    assert T.IsDigit((digits + rest)[0]);
    DigitsStop(digits, rest);
  }

  lemma PolicyBegins(maxAge: nat, names: seq<string>)
    requires AreWords(names)
    ensures MaxAgeText(Policy(maxAge, names)) == Some(T.Decimal(maxAge))
  {
    var digits := T.Decimal(maxAge);
    T.DecimalIsDigits(maxAge);
    if names != [] {
      AttributesEndInLetter(names);
    }
    MaxAgeBegins(Policy(maxAge, names), digits, Attributes(names));
  }

  lemma NumberReadsBack(maxAge: nat)
    requires |T.Decimal(maxAge)| <= 4300
    ensures ToNumber(T.Decimal(maxAge)) == Some(maxAge)
  {
    T.DecimalRoundTrip(maxAge);
  }

  lemma DirectiveSeenIff(maxAge: nat, names: seq<string>, directive: string)
    requires AreWords(names) && |directive| > 0 && '-' !in directive
    ensures HasDirective(Policy(maxAge, names), directive)
            <==> exists name :: name in names && T.Lower(name) == directive
  {
    var first := "max-age=" + T.Decimal(maxAge);
    T.DecimalIsDigits(maxAge);
    SplitPolicy(first, names);
    MaxAgeNames(T.Decimal(maxAge), directive);
    assert "max-age"[3] == '-';
    SegmentsName(names, directive);
  }

  /** Round trip: a policy is read back with its age, and a directive is seen
      exactly when one of the names is that directive in some letter case. */
  lemma PolicyRoundTrip(maxAge: nat, names: seq<string>)
    requires AreWords(names) && |T.Decimal(maxAge)| <= 4300
    ensures var parsed := ParseHsts(Policy(maxAge, names));
            && parsed.maxAge == Some(maxAge)
            && (parsed.includeSubdomains <==> exists name :: name in names && T.Lower(name) == "includesubdomains")
            && (parsed.preload <==> exists name :: name in names && T.Lower(name) == "preload")
  {
    var parsed := ParseHsts(Policy(maxAge, names));
    PolicyIsStripped(maxAge, names);
    assert parsed.maxAge == Some(maxAge) by {
      PolicyBegins(maxAge, names);
      NumberReadsBack(maxAge);
    }
    DirectiveSeenIff(maxAge, names, "includesubdomains");
    DirectiveSeenIff(maxAge, names, "preload");
  }

  /** Over https the detector is content with a policy exactly when it lasts a
      year, covers subdomains and asks for preloading. */
  lemma AdvisedPolicyIsCleanIff(url: string, maxAge: nat, names: seq<string>)
    requires IsHttps(url) && AreWords(names) && |T.Decimal(maxAge)| <= 4300
    ensures HstsFindings(url, Policy(maxAge, names)) == []
            <==> && maxAge >= 365 * 24 * 60 * 60
                 && (exists name :: name in names && T.Lower(name) == "includesubdomains")
                 && (exists name :: name in names && T.Lower(name) == "preload")
  {
    PolicyRoundTrip(maxAge, names);
    var parsed := ParseHsts(Policy(maxAge, names));
    assert HstsWeaknesses(parsed) == [] <==> !Short(parsed.maxAge) && parsed.includeSubdomains && parsed.preload;
  }
}
