/**
 * The regular-expression literals of the client's validators, transcribed
 * character class by character class, and what each one accepts stated
 * without regular expressions.
 */
module Patterns {
  import opened Text
  import opened Regex

  /** `/^[a-zA-Z\s]+$/`: product name and description. */
  const NameRegex: Re := Plus(Class(Union(Union(Range('a', 'z'), Range('A', 'Z')), Space)))

  /** `/^\d+(\.\d{1,2})?$/`: product price. */
  const PriceRegex: Re := Cat(Plus(Class(Digit)), Opt(Cat(Char('.'), Counted(Class(Digit), 1, 2))))

  /** `/^[A-Za-z]+$/`: first and last name at registration. */
  const PersonNameRegex: Re := Plus(Class(Union(Range('A', 'Z'), Range('a', 'z'))))

  /** `/^\S+@\S+\.\S+$/`: e-mail address at registration and login. */
  const EmailRegex: Re :=
    Cat(Plus(Class(NonSpace)), Cat(Char('@'), Cat(Plus(Class(NonSpace)), Cat(Char('.'), Plus(Class(NonSpace))))))

  /** `/^\d{10}$/`: mobile number. */
  const MobileRegex: Re := Counted(Class(Digit), 10, 10)

  /** One or more digits, optionally followed by `.` and one or two digits. */
  predicate IsPriceText(s: string) {
    || (|s| >= 1 && AllDigits(s))
    || exists k :: 1 <= k && k + 2 <= |s| <= k + 3 && s[k] == '.' && AllDigits(s[..k]) && AllDigits(s[k + 1..])
  }

  /**
   * No whitespace anywhere, an `@` after at least one character, and a `.`
   * at least two characters after that `@` with at least one character after it.
   */
  predicate IsEmailText(s: string) {
    && NoSpace(s)
    && exists i, j :: 1 <= i && i + 2 <= j <= |s| - 2 && s[i] == '@' && s[j] == '.'
  }

  lemma {:induction false} NameRegexMeaning(s: string)
    ensures Matches(NameRegex, s) <==> |s| >= 1 && AllLettersOrSpaces(s)
  {
    var cls := Union(Union(Range('a', 'z'), Range('A', 'Z')), Space);
    ClassPlus(cls, s);
    assert AllIn(cls, s) <==> AllLettersOrSpaces(s) by {
      forall i | 0 <= i < |s| ensures cls.Has(s[i]) <==> IsAsciiLetter(s[i]) || IsSpace(s[i]) {
        var c := s[i];
        assert cls.left.Has(c) == IsAsciiLetter(c);
        assert cls.Has(c) == (cls.left.Has(c) || cls.right.Has(c));
      }
    }
  }

  lemma {:induction false} PersonNameRegexMeaning(s: string)
    ensures Matches(PersonNameRegex, s) <==> |s| >= 1 && AllLetters(s)
  {
    var cls := Union(Range('A', 'Z'), Range('a', 'z'));
    ClassPlus(cls, s);
    assert AllIn(cls, s) <==> AllLetters(s) by {
      forall i | 0 <= i < |s| ensures cls.Has(s[i]) <==> IsAsciiLetter(s[i]) {
      }
    }
  }

  lemma {:induction false} MobileRegexMeaning(s: string)
    ensures Matches(MobileRegex, s) <==> |s| == 10 && AllDigits(s)
  {
    ClassTimes(Digit, s, 10);
  }

  /** `(\.\d{1,2})?` */
  lemma FractionMeaning(t: string)
    ensures Matches(Opt(Cat(Char('.'), Counted(Class(Digit), 1, 2))), t)
        <==> t == [] || (t[0] == '.' && 2 <= |t| <= 3 && AllDigits(t[1..]))
  {
    CharThen('.', Counted(Class(Digit), 1, 2), t);
    if |t| >= 1 {
      var u := t[1..];
      ClassTimes(Digit, u, 1);
      ClassTimes(Digit, u, 2);
      assert Matches(Counted(Class(Digit), 1, 2), u) <==> MatchesTimes(Class(Digit), u, 1) || MatchesTimes(Class(Digit), u, 2);
    }
  }

  lemma {:induction false} PriceRegexMeaning(s: string)
    ensures Matches(PriceRegex, s) <==> IsPriceText(s)
  {
    var frac := Opt(Cat(Char('.'), Counted(Class(Digit), 1, 2)));
    ClassPlusThen(Digit, frac, s);
    if Matches(PriceRegex, s) {
      var k :| 1 <= k <= |s| && AllIn(Digit, s[..k]) && Matches(frac, s[k..]);
      FractionMeaning(s[k..]);
      if k == |s| {
        assert s[..k] == s;
      } else {
        assert s[k + 1..] == s[k..][1..];
      }
    }
    if IsPriceText(s) {
      if |s| >= 1 && AllDigits(s) {
        assert s[..|s|] == s;
        FractionMeaning(s[|s|..]);
      } else {
        var k :| 1 <= k && k + 2 <= |s| <= k + 3 && s[k] == '.' && AllDigits(s[..k]) && AllDigits(s[k + 1..]);
        FractionMeaning(s[k..]);
        assert s[k + 1..] == s[k..][1..];
      }
    }
  }

  /** `\.\S+` */
  lemma DotTailMeaning(t: string)
    ensures Matches(Cat(Char('.'), Plus(Class(NonSpace))), t)
        <==> |t| >= 2 && t[0] == '.' && NoSpace(t[1..])
  {
    CharThen('.', Plus(Class(NonSpace)), t);
    if |t| >= 1 {
      ClassPlus(NonSpace, t[1..]);
    }
  }

  /** The part after the `@`: some non-empty text, a `.`, some non-empty text, no whitespace. */
  predicate IsDomainText(u: string) {
    exists j :: 1 <= j <= |u| - 2 && u[j] == '.' && NoSpace(u[..j]) && NoSpace(u[j + 1..])
  }

  /** `\S+\.\S+` */
  lemma DomainMeaning(u: string)
    ensures Matches(Cat(Plus(Class(NonSpace)), Cat(Char('.'), Plus(Class(NonSpace)))), u) <==> IsDomainText(u)
  {
    var tail := Cat(Char('.'), Plus(Class(NonSpace)));
    ClassPlusThen(NonSpace, tail, u);
    if Matches(Cat(Plus(Class(NonSpace)), tail), u) {
      var j :| 1 <= j <= |u| && AllIn(NonSpace, u[..j]) && Matches(tail, u[j..]);
      DotTailMeaning(u[j..]);
      assert u[j..][1..] == u[j + 1..];
    }
    if IsDomainText(u) {
      var j :| 1 <= j <= |u| - 2 && u[j] == '.' && NoSpace(u[..j]) && NoSpace(u[j + 1..]);
      DotTailMeaning(u[j..]);
      assert u[j..][1..] == u[j + 1..];
      assert AllIn(NonSpace, u[..j]);
    }
  }

  /** The regex in pieces: a prefix, `@`, a middle part, `.`, a suffix, none containing whitespace. */
  predicate EmailPieces(s: string, i: int, j: int) {
    && 1 <= i && i + 2 <= j <= |s| - 2 && s[i] == '@' && s[j] == '.'
    && NoSpace(s[..i]) && NoSpace(s[i + 1..j]) && NoSpace(s[j + 1..])
  }

  lemma EmailPiecesNoSpace(s: string, i: int, j: int)
    requires EmailPieces(s, i, j)
    ensures NoSpace(s)
  {
    forall m | 0 <= m < |s| ensures !IsSpace(s[m]) {
      if m < i {
        assert s[m] == s[..i][m];
      } else if i < m < j {
        assert s[m] == s[i + 1..j][m - i - 1];
      } else if j < m {
        assert s[m] == s[j + 1..][m - j - 1];
      }
    }
  }

  /** `\S+@\S+\.\S+` taken apart at the `@`. */
  lemma EmailRegexAtSplit(s: string)
    ensures Matches(EmailRegex, s)
        <==> exists i :: 1 <= i < |s| && s[i] == '@' && NoSpace(s[..i]) && IsDomainText(s[i + 1..])
  {
    var atDomain := Cat(Char('@'), Cat(Plus(Class(NonSpace)), Cat(Char('.'), Plus(Class(NonSpace)))));
    ClassPlusThen(NonSpace, atDomain, s);
    if Matches(EmailRegex, s) {
      var i :| 1 <= i <= |s| && AllIn(NonSpace, s[..i]) && Matches(atDomain, s[i..]);
      CharThen('@', atDomain.second, s[i..]);
      assert s[i..][1..] == s[i + 1..];
      DomainMeaning(s[i + 1..]);
      assert NoSpace(s[..i]);
    }
    if exists i :: 1 <= i < |s| && s[i] == '@' && NoSpace(s[..i]) && IsDomainText(s[i + 1..]) {
      var i :| 1 <= i < |s| && s[i] == '@' && NoSpace(s[..i]) && IsDomainText(s[i + 1..]);
      DomainMeaning(s[i + 1..]);
      assert s[i..][1..] == s[i + 1..];
      CharThen('@', atDomain.second, s[i..]);
      assert AllIn(NonSpace, s[..i]);
    }
  }

  lemma PiecesFromAtSplit(s: string, i: int)
    requires 1 <= i < |s| && s[i] == '@' && NoSpace(s[..i]) && IsDomainText(s[i + 1..])
    ensures exists i, j :: EmailPieces(s, i, j)
  {
    var u := s[i + 1..];
    var j' :| 1 <= j' <= |u| - 2 && u[j'] == '.' && NoSpace(u[..j']) && NoSpace(u[j' + 1..]);
    var j := i + 1 + j';
    assert u[..j'] == s[i + 1..j];
    assert u[j' + 1..] == s[j + 1..];
    assert EmailPieces(s, i, j);
  }

  lemma AtSplitFromPieces(s: string, i: int, j: int)
    requires EmailPieces(s, i, j)
    ensures 1 <= i < |s| && s[i] == '@' && NoSpace(s[..i]) && IsDomainText(s[i + 1..])
  {
    var u := s[i + 1..];
    var j' := j - i - 1;
    assert u[..j'] == s[i + 1..j];
    assert u[j' + 1..] == s[j + 1..];
    assert u[j'] == '.';
  }

  /** Every slice of a whitespace-free string is whitespace-free. */
  lemma NoSpaceSlice(s: string, a: int, b: int)
    requires NoSpace(s) && 0 <= a <= b <= |s|
    ensures NoSpace(s[a..b]) && NoSpace(s[..b]) && NoSpace(s[a..])
  {
    assert forall m :: 0 <= m < b - a ==> s[a..b][m] == s[a + m];
    assert forall m :: 0 <= m < b ==> s[..b][m] == s[m];
    assert forall m :: 0 <= m < |s| - a ==> s[a..][m] == s[a + m];
  }

  lemma EmailTextFromAtSplit(s: string, i: int)
    requires 1 <= i < |s| && s[i] == '@' && NoSpace(s[..i]) && IsDomainText(s[i + 1..])
    ensures IsEmailText(s)
  {
    PiecesFromAtSplit(s, i);
    var i', j :| EmailPieces(s, i', j);
    EmailPiecesNoSpace(s, i', j);
  }

  lemma AtSplitFromEmailText(s: string)
    requires IsEmailText(s)
    ensures exists i :: 1 <= i < |s| && s[i] == '@' && NoSpace(s[..i]) && IsDomainText(s[i + 1..])
  {
    var i, j :| 1 <= i && i + 2 <= j <= |s| - 2 && s[i] == '@' && s[j] == '.';
    NoSpaceSlice(s, 0, i);
    NoSpaceSlice(s, i + 1, j);
    NoSpaceSlice(s, j + 1, |s|);
    assert EmailPieces(s, i, j);
    AtSplitFromPieces(s, i, j);
  }

  /** The `@` split, restated as the plain e-mail shape. */
  lemma AtSplitIsEmailText(s: string)
    ensures (exists i :: 1 <= i < |s| && s[i] == '@' && NoSpace(s[..i]) && IsDomainText(s[i + 1..]))
        <==> IsEmailText(s)
  {
    if exists i :: 1 <= i < |s| && s[i] == '@' && NoSpace(s[..i]) && IsDomainText(s[i + 1..]) {
      var i :| 1 <= i < |s| && s[i] == '@' && NoSpace(s[..i]) && IsDomainText(s[i + 1..]);
      EmailTextFromAtSplit(s, i);
    }
    if IsEmailText(s) {
      AtSplitFromEmailText(s);
    }
  }

  lemma {:induction false} EmailRegexMeaning(s: string)
    ensures Matches(EmailRegex, s) <==> IsEmailText(s)
  {
    EmailRegexAtSplit(s);
    AtSplitIsEmailText(s);
  }

  /** `"10"` and `"10.55"` are prices. */
  lemma PriceAccepted()
    ensures Matches(PriceRegex, "10") && Matches(PriceRegex, "10.55")
  {
    PriceRegexMeaning("10");
    PriceRegexMeaning("10.55");
    assert IsPriceText("10.55") by {
      assert "10.55"[..2] == "10" && "10.55"[3..] == "55";
    }
  }

  /** `"10."`, `".5"` and `"10.555"` are not. */
  lemma PriceRejected()
    ensures !Matches(PriceRegex, "10.") && !Matches(PriceRegex, ".5") && !Matches(PriceRegex, "10.555")
  {
    PriceRegexMeaning("10.");
    assert !IsDigit("10."[2]);
    PriceRegexMeaning(".5");
    assert !IsDigit(".5"[0]);
    PriceRegexMeaning("10.555");
    assert !IsDigit("10.555"[2]);
  }

  /** `"a@b.com"` is an e-mail address. */
  lemma EmailAccepted()
    ensures Matches(EmailRegex, "a@b.com")
  {
    var s := "a@b.com";
    EmailRegexMeaning(s);
    assert s[1] == '@' && s[3] == '.';
    forall m | 0 <= m < |s| ensures !IsSpace(s[m]) {
    }
  }

  /** `"not-an-email"`, `"@b.com"`, `"a@.com"` and `"a b@c.de"` are not. */
  lemma EmailRejected()
    ensures !Matches(EmailRegex, "not-an-email") && !Matches(EmailRegex, "@b.com")
    ensures !Matches(EmailRegex, "a@.com") && !Matches(EmailRegex, "a b@c.de")
  {
    EmailRegexMeaning("not-an-email");
    assert '@' !in "not-an-email";
    EmailRegexMeaning("@b.com");
    assert '@' !in "@b.com"[1..];
    EmailRegexMeaning("a@.com");
    assert forall j :: 3 <= j <= 4 ==> "a@.com"[j] != '.';
    EmailRegexMeaning("a b@c.de");
    assert IsSpace("a b@c.de"[1]);
  }

  /** Spaces count for a product name but not for a person's name. */
  lemma NameWithSpace()
    ensures Matches(NameRegex, "Red Shoe") && !Matches(PersonNameRegex, "Red Shoe")
  {
    NameRegexMeaning("Red Shoe");
    PersonNameRegexMeaning("Red Shoe");
    assert !IsAsciiLetter("Red Shoe"[3]);
  }

  /** Neither name rule accepts the empty string or a digit. */
  lemma NameRejected()
    ensures !Matches(NameRegex, "") && !Matches(PersonNameRegex, "")
    ensures !Matches(NameRegex, "Shoe2") && !Matches(PersonNameRegex, "Ada2")
  {
    NameRegexMeaning("");
    PersonNameRegexMeaning("");
    NameRegexMeaning("Shoe2");
    assert !IsAsciiLetter("Shoe2"[4]) && !IsSpace("Shoe2"[4]);
    PersonNameRegexMeaning("Ada2");
    assert !IsAsciiLetter("Ada2"[3]);
  }

  /** Exactly ten digits: `"9876543210"` passes, nine digits or a `+` prefix do not. */
  lemma MobileExamples()
    ensures Matches(MobileRegex, "9876543210")
    ensures !Matches(MobileRegex, "987654321") && !Matches(MobileRegex, "+919876543210")
  {
    MobileRegexMeaning("9876543210");
    MobileRegexMeaning("987654321");
    MobileRegexMeaning("+919876543210");
  }
}
