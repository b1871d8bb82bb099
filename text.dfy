/**
 * Characters and strings as the client's JavaScript sees them: the character
 * classes its regular expressions use, `String.prototype.split` with a
 * one-character separator, `toLowerCase` on ASCII, and `length` in UTF-16
 * code units.
 */
module Text {

  /** `[a-z]` or `[A-Z]`. */
  predicate IsAsciiLetter(c: char) {
    ('a' <= c <= 'z') || ('A' <= c <= 'Z')
  }

  /** `\d`: in JavaScript always the ASCII digits only. */
  predicate IsDigit(c: char) {
    '0' <= c <= '9'
  }

  /**
   * `\s`: ECMAScript WhiteSpace and LineTerminator code points
   * (TAB, LF, VT, FF, CR, SPACE, NBSP, the Unicode space separators,
   * LINE SEPARATOR, PARAGRAPH SEPARATOR and the byte order mark).
   */
  predicate IsSpace(c: char) {
    || c == '\t' || c == '\n' || c == '\U{B}' || c == '\U{C}' || c == '\r'
    || c == ' ' || c == '\U{A0}' || c == '\U{1680}'
    || ('\U{2000}' <= c <= '\U{200A}')
    || c == '\U{2028}' || c == '\U{2029}' || c == '\U{202F}' || c == '\U{205F}'
    || c == '\U{3000}' || c == '\U{FEFF}'
  }

  predicate AllLetters(s: string) {
    forall i :: 0 <= i < |s| ==> IsAsciiLetter(s[i])
  }

  predicate AllLettersOrSpaces(s: string) {
    forall i :: 0 <= i < |s| ==> IsAsciiLetter(s[i]) || IsSpace(s[i])
  }

  predicate AllDigits(s: string) {
    forall i :: 0 <= i < |s| ==> IsDigit(s[i])
  }

  predicate NoSpace(s: string) {
    forall i :: 0 <= i < |s| ==> !IsSpace(s[i])
  }

  /** JavaScript truthiness of a string: only the empty string is falsy. */
  predicate Truthy(s: string) {
    s != ""
  }

  /** `s.length`: code points above U+FFFF take two UTF-16 code units. */
  function Utf16Length(s: string): (n: nat)
    ensures |s| <= n <= 2 * |s|
  {
    if s == [] then 0
    else (if s[0] as int > 0xFFFF then 2 else 1) + Utf16Length(s[1..])
  }

  /** On text without astral code points, `length` is the character count. */
  lemma {:induction false} Utf16LengthOfBmp(s: string)
    requires forall i :: 0 <= i < |s| ==> s[i] as int <= 0xFFFF
    ensures Utf16Length(s) == |s|
  {
    if s != [] {
      Utf16LengthOfBmp(s[1..]);
    }
  }

  function AsciiLowerChar(c: char): char {
    if 'A' <= c <= 'Z' then (c as int + 32) as char else c
  }

  /** `toLowerCase` restricted to ASCII: every other character is kept. */
  function AsciiLower(s: string): (r: string)
    ensures |r| == |s|
  {
    if s == [] then [] else [AsciiLowerChar(s[0])] + AsciiLower(s[1..])
  }

  /** Lower-casing works character by character and leaves lower-case ASCII alone. */
  lemma {:induction false} AsciiLowerAt(s: string, i: nat)
    requires i < |s|
    ensures AsciiLower(s)[i] == AsciiLowerChar(s[i])
    ensures 'a' <= AsciiLower(s)[i] <= 'z' <==> IsAsciiLetter(s[i])
  {
    if i > 0 {
      AsciiLowerAt(s[1..], i - 1);
    }
  }

  /** `s.split(sep)`: the pieces between occurrences of `sep`, never empty. */
  function Split(s: string, sep: char): (parts: seq<string>)
    ensures |parts| >= 1
    decreases |s|
  {
    if s == [] then [""]
    else
      var rest := Split(s[1..], sep);
      if s[0] == sep then [""] + rest
      else [[s[0]] + rest[0]] + rest[1..]
  }

  /** `parts.join(sep)`. */
  function Join(parts: seq<string>, sep: char): string
    requires |parts| >= 1
    decreases |parts|
  {
    if |parts| == 1 then parts[0] else parts[0] + [sep] + Join(parts[1..], sep)
  }

  /** `arr.pop()` on a non-empty array: its last element. */
  function Last<T>(xs: seq<T>): T
    requires |xs| >= 1
  {
    xs[|xs| - 1]
  }

  /** No piece of a split contains the separator. */
  lemma {:induction false} SplitPiecesLackSeparator(s: string, sep: char)
    ensures forall k :: 0 <= k < |Split(s, sep)| ==> sep !in Split(s, sep)[k]
    decreases |s|
  {
    if s != [] {
      SplitPiecesLackSeparator(s[1..], sep);
    }
  }

  /** Joining the pieces back with the separator gives the original string. */
  lemma {:induction false} JoinSplit(s: string, sep: char)
    ensures Join(Split(s, sep), sep) == s
    decreases |s|
  {
    if s != [] {
      JoinSplit(s[1..], sep);
      var rest := Split(s[1..], sep);
      if s[0] == sep {
        assert ([""] + rest)[1..] == rest;
      } else {
        var parts := [[s[0]] + rest[0]] + rest[1..];
        if |rest| == 1 {
          assert Join(parts, sep) == [s[0]] + rest[0];
        } else {
          assert parts[1..] == rest[1..];
          assert Join(rest, sep) == rest[0] + [sep] + Join(rest[1..], sep);
        }
      }
    }
  }

  /** A split into more than one piece means the separator occurs. */
  lemma {:induction false} SplitCountsSeparators(s: string, sep: char)
    ensures sep !in s ==> Split(s, sep) == [s]
    decreases |s|
  {
    if s != [] {
      SplitCountsSeparators(s[1..], sep);
      if sep !in s {
        assert sep !in s[1..];
        assert [s[0]] + s[1..] == s;
      }
    }
  }

  /**
   * The last piece of a split is the whole string when the separator does not
   * occur, and otherwise the text after its last occurrence.
   */
  lemma {:induction false} LastPieceOfSplit(s: string, sep: char)
    ensures sep !in s ==> Last(Split(s, sep)) == s
    ensures sep in s ==> exists k :: 0 <= k < |s| && s[k] == sep
                                && Last(Split(s, sep)) == s[k + 1..] && sep !in s[k + 1..]
    decreases |s|
  {
    if s != [] {
      var rest := Split(s[1..], sep);
      LastPieceOfSplit(s[1..], sep);
      assert Last(Split(s, sep)) == (if |rest| == 1 && s[0] != sep then [s[0]] + rest[0] else Last(rest));
      if sep in s[1..] {
        var k :| 0 <= k < |s[1..]| && s[1..][k] == sep && Last(rest) == s[1..][k + 1..] && sep !in s[1..][k + 1..];
        assert s[1..][k + 1..] == s[k + 2..];
        SplitPiecesLackSeparator(s[1..], sep);
        assert sep in rest[|rest| - 1] ==> false;
        if |rest| == 1 {
          assert rest[0] == s[1..] by { JoinSplit(s[1..], sep); }
          assert false;
        }
        assert s[k + 1] == sep;
      } else if s[0] == sep {
        assert Last(rest) == s[1..];
        assert s[0 + 1..] == s[1..];
      } else {
        assert sep !in s by {
          forall i | 0 <= i < |s| ensures s[i] != sep {
            if i > 0 { assert s[i] == s[1..][i - 1]; }
          }
        }
        assert |rest| == 1 by {
          JoinSplit(s[1..], sep);
          SplitCountsSeparators(s[1..], sep);
        }
        assert [s[0]] + s[1..] == s;
      }
    }
  }
}
