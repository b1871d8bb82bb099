/**
 * The fragment of JavaScript regular expressions the client's validators use,
 * with the meaning `/^r$/.test(s)` gives it: `r` matches all of `s`.
 */
module Regex {
  import opened Text

  /** A bracket expression or class escape. */
  datatype CharClass =
    | Range(lo: char, hi: char)        // `a-z` inside brackets
    | Space                            // `\s`
    | NonSpace                         // `\S`
    | Digit                            // `\d`
    | Union(left: CharClass, right: CharClass)
  {
    predicate Has(c: char) {
      match this
      case Range(lo, hi) => lo <= c <= hi
      case Space => IsSpace(c)
      case NonSpace => !IsSpace(c)
      case Digit => IsDigit(c)
      case Union(l, r) => l.Has(c) || r.Has(c)
    }
  }

  datatype Re =
    | Class(cls: CharClass)            // one character of the class
    | Char(c: char)                    // one literal character, such as `@` or `\.`
    | Cat(first: Re, second: Re)       // concatenation
    | Plus(body: Re)                   // `r+`
    | Opt(body: Re)                    // `(r)?`
    | Counted(body: Re, lo: nat, hi: nat)  // `r{lo,hi}`; `r{n}` is `r{n,n}`

  /** `r` matches the whole of `s`. */
  predicate Matches(r: Re, s: string)
    decreases r, 0, |s|
  {
    match r
    case Class(cls) => |s| == 1 && cls.Has(s[0])
    case Char(c) => s == [c]
    case Cat(a, b) => exists k :: 0 <= k <= |s| && Matches(a, s[..k]) && Matches(b, s[k..])
    case Plus(a) =>
      || Matches(a, s)
      || exists k :: 1 <= k < |s| && Matches(a, s[..k]) && Matches(Plus(a), s[k..])
    case Opt(a) => s == [] || Matches(a, s)
    case Counted(a, lo, hi) => exists n :: lo <= n <= hi && MatchesTimes(a, s, n)
  }

  /** `s` is `n` consecutive pieces, each matched by `r`. */
  predicate MatchesTimes(r: Re, s: string, n: nat)
    decreases r, 1, n
  {
    if n == 0 then s == []
    else exists k :: 0 <= k <= |s| && Matches(r, s[..k]) && MatchesTimes(r, s[k..], n - 1)
  }

  /** Every character of `s` is in the class. */
  predicate AllIn(cls: CharClass, s: string) {
    forall i :: 0 <= i < |s| ==> cls.Has(s[i])
  }

  /** `[...]+` matches exactly the non-empty strings drawn from the class. */
  lemma {:induction false} ClassPlus(cls: CharClass, s: string)
    ensures Matches(Plus(Class(cls)), s) <==> |s| >= 1 && AllIn(cls, s)
    decreases |s|
  {
    if Matches(Plus(Class(cls)), s) && |s| != 1 {
      assert !Matches(Class(cls), s);
      var k :| 1 <= k < |s| && Matches(Class(cls), s[..k]) && Matches(Plus(Class(cls)), s[k..]);
      ClassPlus(cls, s[k..]);
      assert k == 1;
      forall i | 0 <= i < |s| ensures cls.Has(s[i]) {
        if i > 0 { assert s[i] == s[1..][i - 1]; }
      }
    }
    if |s| > 1 && AllIn(cls, s) {
      ClassPlus(cls, s[1..]);
      assert AllIn(cls, s[1..]) by {
        forall i | 0 <= i < |s| - 1 ensures cls.Has(s[1..][i]) {
          assert s[1..][i] == s[i + 1];
        }
      }
      assert Matches(Class(cls), s[..1]);
    }
  }

  /** `[...]{n}` taken n times matches exactly the n-character strings from the class. */
  lemma {:induction false} ClassTimes(cls: CharClass, s: string, n: nat)
    ensures MatchesTimes(Class(cls), s, n) <==> |s| == n && AllIn(cls, s)
    decreases n
  {
    if n > 0 {
      if MatchesTimes(Class(cls), s, n) {
        var k :| 0 <= k <= |s| && Matches(Class(cls), s[..k]) && MatchesTimes(Class(cls), s[k..], n - 1);
        ClassTimes(cls, s[k..], n - 1);
        assert k == 1;
        forall i | 0 <= i < |s| ensures cls.Has(s[i]) {
          if i > 0 { assert s[i] == s[1..][i - 1]; }
        }
      }
      if |s| == n && AllIn(cls, s) {
        ClassTimes(cls, s[1..], n - 1);
        assert AllIn(cls, s[1..]) by {
          forall i | 0 <= i < |s| - 1 ensures cls.Has(s[1..][i]) {
            assert s[1..][i] == s[i + 1];
          }
        }
        assert Matches(Class(cls), s[..1]);
      }
    }
  }

  /** A leading literal character is matched by the first character alone. */
  lemma CharThen(c: char, r: Re, s: string)
    ensures Matches(Cat(Char(c), r), s) <==> |s| >= 1 && s[0] == c && Matches(r, s[1..])
  {
    if |s| >= 1 && s[0] == c && Matches(r, s[1..]) {
      assert s[..1] == [c];
    }
  }

  /** A leading `[...]+` takes some non-empty prefix drawn from the class. */
  lemma ClassPlusThen(cls: CharClass, r: Re, s: string)
    ensures Matches(Cat(Plus(Class(cls)), r), s)
        <==> exists k :: 1 <= k <= |s| && AllIn(cls, s[..k]) && Matches(r, s[k..])
  {
    if Matches(Cat(Plus(Class(cls)), r), s) {
      var k :| 0 <= k <= |s| && Matches(Plus(Class(cls)), s[..k]) && Matches(r, s[k..]);
      ClassPlus(cls, s[..k]);
    }
    if exists k :: 1 <= k <= |s| && AllIn(cls, s[..k]) && Matches(r, s[k..]) {
      var k :| 1 <= k <= |s| && AllIn(cls, s[..k]) && Matches(r, s[k..]);
      ClassPlus(cls, s[..k]);
    }
  }
}
