/** What the string operations mean, each told without the function itself. */
module TextLaws {
  import opened Text

  /* Letter case. */

  const CAPITALS := "ABCDEFGHIJKLMNOPQRSTUVWXYZ"
  const SMALL := "abcdefghijklmnopqrstuvwxyz"

  /** Letter for letter along the alphabet; everything else stays. */
  lemma CaseFollowsAlphabet(c: char)
    ensures |CAPITALS| == |SMALL| == 26
    ensures forall i :: 0 <= i < 26 ==> LowerChar(CAPITALS[i]) == SMALL[i] && UpperChar(SMALL[i]) == CAPITALS[i]
    ensures c !in CAPITALS ==> LowerChar(c) == c
    ensures c !in SMALL ==> UpperChar(c) == c
  {
    if 'A' <= c <= 'Z' {
      assert CAPITALS[(c - 'A') as int] == c;
    }
    if 'a' <= c <= 'z' {
      assert SMALL[(c - 'a') as int] == c;
    }
  }

  /* White space. */

  const SPACES := " \t\n\r\U{0B}\U{0C}\U{1C}\U{1D}\U{1E}\U{1F}"

  lemma SpacesAreThese(c: char)
    ensures IsSpace(c) <==> c in SPACES
  {
    assert SPACES[0] == ' ' && SPACES[1] == '\t' && SPACES[2] == '\n' && SPACES[3] == '\r';
    assert SPACES[4] == '\U{0B}' && SPACES[5] == '\U{0C}';
    assert SPACES[6] == '\U{1C}' && SPACES[7] == '\U{1D}' && SPACES[8] == '\U{1E}' && SPACES[9] == '\U{1F}';
  }

  ghost predicate AllSpaces(s: string) {
    forall i :: 0 <= i < |s| ==> IsSpace(s[i])
  }

  ghost predicate IsWord(s: string) {
    s != "" && forall i :: 0 <= i < |s| ==> !IsSpace(s[i])
  }

  /** Begins and ends with something to be seen, if it is not empty. */
  ghost predicate Trimmed(s: string) {
    s != "" ==> !IsSpace(s[0]) && !IsSpace(s[|s| - 1])
  }

  lemma {:induction false} LeftGoes(gap: string, s: string)
    requires AllSpaces(gap) && (s != "" ==> !IsSpace(s[0]))
    ensures StripLeft(gap + s) == s
  {
    if gap == "" {
      assert gap + s == s;
    } else {
      assert (gap + s)[1..] == gap[1..] + s;
      LeftGoes(gap[1..], s);
    }
  }

  lemma {:induction false} RightGoes(s: string, gap: string)
    requires AllSpaces(gap) && (s != "" ==> !IsSpace(s[|s| - 1]))
    ensures StripRight(s + gap) == s
  {
    if gap == "" {
      assert s + gap == s;
    } else {
      assert (s + gap)[..|s + gap| - 1] == s + gap[..|gap| - 1];
      RightGoes(s, gap[..|gap| - 1]);
    }
  }

  /** Stripping takes the white space at both ends and nothing else. */
  lemma StripTakesPadding(left: string, s: string, right: string)
    requires AllSpaces(left) && AllSpaces(right) && Trimmed(s)
    ensures Strip(left + s + right) == s
  {
    if s == "" {
      assert AllSpaces(left + right);
      assert left + s + right == (left + right) + "";
      LeftGoes(left + right, "");
    } else {
      assert left + s + right == left + (s + right);
      LeftGoes(left, s + right);
      RightGoes(s, right);
    }
  }

  /* Words. */

  lemma {:induction false} FirstWordStops(word: string, rest: string)
    requires word == "" || IsWord(word)
    requires rest == "" || IsSpace(rest[0])
    ensures FirstWord(word + rest) == word
  {
    if word == "" {
      assert word + rest == rest;
    } else {
      assert (word + rest)[1..] == word[1..] + rest;
      FirstWordStops(word[1..], rest);
    }
  }

  /** White space, a word, and white space or the end: that word comes first. */
  lemma WordsTakeFirst(gap: string, word: string, rest: string)
    requires AllSpaces(gap) && IsWord(word) && (rest == "" || IsSpace(rest[0]))
    ensures Words(gap + word + rest) == [word] + Words(rest)
  {
    assert gap + word + rest == gap + (word + rest);
    assert (word + rest)[0] == word[0];
    LeftGoes(gap, word + rest);
    FirstWordStops(word, rest);
    assert (word + rest)[|word|..] == rest;
  }

  lemma NoWords(gap: string)
    requires AllSpaces(gap)
    ensures Words(gap) == []
  {
    assert gap + "" == gap;
    LeftGoes(gap, "");
  }

  lemma {:induction false} FirstWordIsWord(s: string)
    requires s != "" && !IsSpace(s[0])
    ensures IsWord(FirstWord(s)) && (|FirstWord(s)| < |s| ==> IsSpace(s[|FirstWord(s)|]))
  {
    if |s| > 1 && !IsSpace(s[1]) {
      FirstWordIsWord(s[1..]);
    }
  }

  /** Words are not empty and hold no white space. */
  lemma {:induction false} WordsAreWords(s: string)
    ensures forall i :: 0 <= i < |Words(s)| ==> IsWord(Words(s)[i])
    decreases |s|
  {
    var rest := StripLeft(s);
    if rest != "" {
      FirstWordIsWord(rest);
      WordsAreWords(rest[|FirstWord(rest)|..]);
    }
  }

  /* Containment. */

  lemma {:induction false} ContainedSomewhere(s: string, part: string) returns (i: nat)
    requires Contains(s, part)
    ensures i <= |s| && part <= s[i..]
  {
    if part <= s {
      i := 0;
    } else {
      var j := ContainedSomewhere(s[1..], part);
      i := j + 1;
      assert s[1..][j..] == s[i..];
    }
  }

  /** A text contains another exactly if that stands somewhere in it. */
  lemma ContainsIff(s: string, part: string)
    ensures Contains(s, part) <==> exists i :: 0 <= i <= |s| && part <= s[i..]
  {
    if Contains(s, part) {
      var i := ContainedSomewhere(s, part);
    }
    if i :| 0 <= i <= |s| && part <= s[i..] {
      ContainsAt(s, part, i);
    }
  }

  /* Splitting. */

  function Joined(pieces: seq<string>, separator: char): string {
    if pieces == [] then ""
    else if |pieces| == 1 then pieces[0]
    else pieces[0] + [separator] + Joined(pieces[1..], separator)
  }

  /** The pieces hold no separator, and joined by it they are the text again. */
  lemma {:induction false} SplitJoins(s: string, separator: char)
    ensures Split(s, separator) != [] && Joined(Split(s, separator), separator) == s
    ensures forall i :: 0 <= i < |Split(s, separator)| ==> separator !in Split(s, separator)[i]
    decreases |s|
  {
    var piece := Before(s, separator);
    if |piece| < |s| {
      var rest := s[|piece| + 1..];
      SplitJoins(rest, separator);
      assert Split(s, separator)[1..] == Split(rest, separator);
      assert s == piece + [separator] + rest;
    }
  }

  /** Splitting what was joined gives the pieces back. */
  lemma {:induction false} JoinedSplits(pieces: seq<string>, separator: char)
    requires pieces != [] && forall i :: 0 <= i < |pieces| ==> separator !in pieces[i]
    ensures Split(Joined(pieces, separator), separator) == pieces
  {
    var piece := pieces[0];
    if |pieces| == 1 {
      BeforeStops(piece, separator, "");
      assert piece + "" == piece;
    } else {
      var rest := Joined(pieces[1..], separator);
      assert piece + [separator] + rest == piece + ([separator] + rest);
      BeforeStops(piece, separator, [separator] + rest);
      assert (piece + [separator] + rest)[|piece| + 1..] == rest;
      JoinedSplits(pieces[1..], separator);
    }
  }

  /* Numbers. */

  const DIGITS := "0123456789"

  /** A digit stands for its place in the row, and one more behind counts tenfold. */
  lemma ValueFollowsDigits(digits: string, i: nat)
    requires i < 10 && forall k :: 0 <= k < |digits| ==> IsDigit(digits[k])
    ensures |DIGITS| == 10 && IsDigit(DIGITS[i])
    ensures Value("") == 0 && Value(digits + [DIGITS[i]]) == 10 * Value(digits) + i
  {
    assert DIGITS[i] == '0' + i as char;
    assert (digits + [DIGITS[i]])[..|digits|] == digits;
  }
}
