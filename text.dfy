/** The JavaScript string operations the services rely on: `split`, `join`,
    `trim`, `toLowerCase`, character classes of regular expressions, and the
    decimal rendering of a number inside a template string. */
module Text {

  // ---------------------------------------------------------------------------
  // Character classes

  /** `\d` */
  predicate IsDigit(c: char)
  {
    '0' <= c <= '9'
  }

  predicate IsAsciiLetter(c: char)
  {
    'a' <= c <= 'z' || 'A' <= c <= 'Z'
  }

  /** `[a-zA-Z0-9]` */
  predicate IsAlnum(c: char)
  {
    IsAsciiLetter(c) || IsDigit(c)
  }

  /** `[a-zA-Z0-9_-]`, the characters of a Drive id. */
  predicate IsIdChar(c: char)
  {
    IsAlnum(c) || c == '_' || c == '-'
  }

  /** White space as both `String.prototype.trim` and the class `\s` define it:
      the ECMAScript WhiteSpace and LineTerminator characters. */
  predicate IsSpace(c: char)
  {
    || c == '\t' || c == '\n' || c == '\U{B}' || c == '\U{C}' || c == '\r' || c == ' '
    || c == '\U{A0}' || c == '\U{1680}' || '\U{2000}' <= c <= '\U{200A}'
    || c == '\U{2028}' || c == '\U{2029}' || c == '\U{202F}' || c == '\U{205F}'
    || c == '\U{3000}' || c == '\U{FEFF}'
  }

  // ---------------------------------------------------------------------------
  // Case

  /** Case folding of a case-insensitive regular expression without the `u`
      flag: only ASCII letters fold onto ASCII letters. */
  function AsciiLower(c: char): char
  {
    if 'A' <= c <= 'Z' then (c as int + 32) as char else c
  }

  /** `toLowerCase` on one character, exact whenever the lower case is an ASCII
      character: the ASCII capitals and the Kelvin sign, which lowers to `k`. */
  function LowerChar(c: char): char
  {
    if c == '\U{212A}' then 'k' else AsciiLower(c)
  }

  function Lower(s: string): (r: string)
    ensures |r| == |s|
  {
    if s == [] then [] else [LowerChar(s[0])] + Lower(s[1..])
  }

  // ---------------------------------------------------------------------------
  // Length

  /** A character outside the Basic Multilingual Plane, which a JavaScript
      string holds as a surrogate pair of two UTF-16 code units. */
  predicate IsAstral(c: char)
  {
    c >= '\U{10000}'
  }

  /** `s.length` of a JavaScript string: its number of UTF-16 code units. */
  function Utf16Length(s: string): (n: nat)
    ensures |s| <= n <= 2 * |s|
    ensures n == |s| <==> forall k :: 0 <= k < |s| ==> !IsAstral(s[k])
    ensures (forall k :: 0 <= k < |s| ==> IsAstral(s[k])) ==> n == 2 * |s|
  {
    if s == [] then 0 else (if IsAstral(s[0]) then 2 else 1) + Utf16Length(s[1..])
  }

  // ---------------------------------------------------------------------------
  // Searching

  predicate StartsWith(s: string, prefix: string)
  {
    |prefix| <= |s| && s[..|prefix|] == prefix
  }

  /** `s.includes(t)` */
  predicate Contains(s: string, t: string)
    decreases |s|
  {
    StartsWith(s, t) || (s != [] && Contains(s[1..], t))
  }

  /** A string cannot contain a text whose first character it lacks. */
  lemma {:induction false} NotContainsWithoutHead(s: string, t: string)
    requires t != [] && t[0] !in s
    ensures !Contains(s, t)
    decreases |s|
  {
    if s != [] {
      assert s[1..] == s[1..] && t[0] !in s[1..];
      NotContainsWithoutHead(s[1..], t);
    }
  }

  // ---------------------------------------------------------------------------
  // split and join

  function Last<T>(s: seq<T>): T
    requires s != []
  {
    s[|s| - 1]
  }

  /** `s.split(sep)` for a one-character separator: the pieces between the
      occurrences of `sep`, always at least one. */
  function Split(s: string, sep: char): (parts: seq<string>)
    ensures |parts| >= 1
    decreases |s|
  {
    if s == [] then [""]
    else
      var rest := Split(s[1..], sep);
      if s[0] == sep then [""] + rest
      else [[s[0]] + rest[0]] + rest[1..]
  }

  /** `parts.join(sep)` */
  function Join(parts: seq<string>, sep: string): string
  {
    if parts == [] then ""
    else if |parts| == 1 then parts[0]
    else parts[0] + sep + Join(parts[1..], sep)
  }

  /** Joining the pieces with the separator gives back the string, and no
      piece holds the separator. */
  lemma {:induction false} SplitJoin(s: string, sep: char)
    ensures Join(Split(s, sep), [sep]) == s
    ensures forall i :: 0 <= i < |Split(s, sep)| ==> sep !in Split(s, sep)[i]
    decreases |s|
  {
    if s != [] {
      var rest := Split(s[1..], sep);
      SplitJoin(s[1..], sep);
      var parts := Split(s, sep);
      if s[0] == sep {
        assert parts == [""] + rest;
        assert parts[1..] == rest;
        assert Join(parts, [sep]) == "" + [sep] + Join(rest, [sep]);
        assert [sep] + s[1..] == s;
      } else {
        assert parts == [[s[0]] + rest[0]] + rest[1..];
        if |rest| == 1 {
          assert Join(parts, [sep]) == [s[0]] + rest[0];
          assert [s[0]] + s[1..] == s;
        } else {
          assert parts[1..] == rest[1..];
          assert Join(rest, [sep]) == rest[0] + [sep] + Join(rest[1..], [sep]);
          assert Join(parts, [sep]) == [s[0]] + rest[0] + [sep] + Join(rest[1..], [sep]);
          assert [s[0]] + s[1..] == s;
        }
        forall i | 0 <= i < |parts| ensures sep !in parts[i] {
          if i > 0 { assert parts[i] == rest[i]; }
        }
      }
    }
  }

  /** A string without the separator is a single piece. */
  lemma {:induction false} SplitWithoutSeparator(s: string, sep: char)
    requires sep !in s
    ensures Split(s, sep) == [s]
    decreases |s|
  {
    if s != [] {
      assert sep !in s[1..];
      SplitWithoutSeparator(s[1..], sep);
      assert [s[0]] + s[1..] == s;
    }
  }

  /** A separator-free head is the first piece; the rest is split on its own. */
  lemma {:induction false} SplitAfterHead(a: string, sep: char, b: string)
    requires sep !in a
    ensures Split(a + [sep] + b, sep) == [a] + Split(b, sep)
    decreases |a|
  {
    var s := a + [sep] + b;
    if a == [] {
      assert s[1..] == b;
    } else {
      assert s[1..] == a[1..] + [sep] + b;
      SplitAfterHead(a[1..], sep, b);
      assert [a[0]] + a[1..] == a;
    }
  }

  /** The first piece is the longest separator-free prefix. */
  lemma {:induction false} SplitFirstPiece(s: string, sep: char)
    ensures var p := Split(s, sep)[0];
      && sep !in p
      && StartsWith(s, p)
      && (|p| == |s| || s[|p|] == sep)
    decreases |s|
  {
    SplitJoin(s, sep);
    if s != [] && s[0] != sep {
      SplitFirstPiece(s[1..], sep);
      var q := Split(s[1..], sep)[0];
      assert Split(s, sep)[0] == [s[0]] + q;
      assert s[1..][..|q|] == q;
      assert s[..|q| + 1] == [s[0]] + s[1..][..|q|];
    }
  }

  /** The joined string ends with the last part, behind a separator when
      there is more than one part. */
  lemma {:induction false} JoinEndsWithLast(parts: seq<string>, sep: char)
    requires parts != []
    ensures var j := Join(parts, [sep]);
      && |Last(parts)| <= |j| && j[|j| - |Last(parts)|..] == Last(parts)
      && (|parts| == 1 ==> |Last(parts)| == |j|)
      && (|parts| > 1 ==> |Last(parts)| < |j| && j[|j| - |Last(parts)| - 1] == sep)
    decreases |parts|
  {
    if |parts| > 1 {
      var rest := parts[1..];
      JoinEndsWithLast(rest, sep);
      var j := Join(parts, [sep]);
      var r := Join(rest, [sep]);
      var t := Last(parts);
      assert t == Last(rest);
      assert j == (parts[0] + [sep]) + r;
      assert j[|j| - |t|..] == r[|r| - |t|..];
      if |rest| == 1 {
        assert j[|j| - |t| - 1] == sep;
      } else {
        assert j[|j| - |t| - 1] == r[|r| - |t| - 1];
      }
    }
  }

  /** The last piece is the longest separator-free suffix. */
  lemma SplitLastPiece(s: string, sep: char)
    ensures var t := Last(Split(s, sep));
      && sep !in t
      && |t| <= |s| && s[|s| - |t|..] == t
      && (|t| == |s| || s[|s| - |t| - 1] == sep)
  {
    SplitJoin(s, sep);
    JoinEndsWithLast(Split(s, sep), sep);
    assert sep !in Split(s, sep)[|Split(s, sep)| - 1];
  }

  /** Whatever comes before the last separator, the last piece is what follows it. */
  lemma LastPieceAfterSeparator(a: string, sep: char, b: string)
    requires sep !in b
    ensures Last(Split(a + [sep] + b, sep)) == b
  {
    var s := a + [sep] + b;
    SplitLastPiece(s, sep);
    var t := Last(Split(s, sep));
    assert s[|s| - |b|..] == b;
    assert s[|s| - |b| - 1] == sep;
    assert |t| == |b|;
  }

  // ---------------------------------------------------------------------------
  // trim

  function TrimStart(s: string): string
    decreases |s|
  {
    if s != [] && IsSpace(s[0]) then TrimStart(s[1..]) else s
  }

  function TrimEnd(s: string): string
    decreases |s|
  {
    if s != [] && IsSpace(s[|s| - 1]) then TrimEnd(s[..|s| - 1]) else s
  }

  /** `s.trim()` */
  function Trim(s: string): string
  {
    TrimEnd(TrimStart(s))
  }

  /** Every character is white space (the empty string included). */
  predicate Blank(s: string)
  {
    forall i :: 0 <= i < |s| ==> IsSpace(s[i])
  }

  lemma {:induction false} TrimStartEmpty(s: string)
    ensures TrimStart(s) == "" <==> Blank(s)
    ensures TrimStart(s) != "" ==> !IsSpace(TrimStart(s)[0])
    decreases |s|
  {
    if s != [] && IsSpace(s[0]) {
      TrimStartEmpty(s[1..]);
      assert Blank(s) <==> Blank(s[1..]) by {
        if Blank(s[1..]) {
          forall i | 0 <= i < |s| ensures IsSpace(s[i]) {
            if i > 0 { assert s[i] == s[1..][i - 1]; }
          }
        }
        if Blank(s) {
          forall i | 0 <= i < |s[1..]| ensures IsSpace(s[1..][i]) {
            assert s[1..][i] == s[i + 1];
          }
        }
      }
    }
  }

  lemma {:induction false} TrimEndKeepsHead(s: string)
    requires s != [] && !IsSpace(s[0])
    ensures TrimEnd(s) != ""
    decreases |s|
  {
    if IsSpace(s[|s| - 1]) {
      assert |s| > 1;
      TrimEndKeepsHead(s[..|s| - 1]);
    }
  }

  /** `!s.trim()` holds exactly of the strings made only of white space. */
  lemma TrimEmptyIffBlank(s: string)
    ensures Trim(s) == "" <==> Blank(s)
  {
    TrimStartEmpty(s);
    if TrimStart(s) != "" {
      TrimEndKeepsHead(TrimStart(s));
    }
  }

  // ---------------------------------------------------------------------------
  // Numbers in template strings

  function DigitChar(d: nat): (c: char)
    requires d < 10
    ensures IsDigit(c)
  {
    ('0' as int + d) as char
  }

  function DigitValue(c: char): (d: nat)
    requires IsDigit(c)
    ensures d < 10
  {
    c as int - '0' as int
  }

  /** `${n}` for a non-negative integer. */
  function Decimal(n: nat): (r: string)
    ensures |r| >= 1
    ensures forall i :: 0 <= i < |r| ==> IsDigit(r[i])
    decreases n
  {
    if n < 10 then [DigitChar(n)] else Decimal(n / 10) + [DigitChar(n % 10)]
  }

  /** The number a string of decimal digits denotes. */
  function DecimalValue(s: string): nat
    requires forall i :: 0 <= i < |s| ==> IsDigit(s[i])
    decreases |s|
  {
    if s == [] then 0 else 10 * DecimalValue(s[..|s| - 1]) + DigitValue(s[|s| - 1])
  }

  /** Reading the rendered digits back gives the number. */
  lemma {:induction false} DecimalRoundTrip(n: nat)
    ensures DecimalValue(Decimal(n)) == n
    decreases n
  {
    var r := Decimal(n);
    if n >= 10 {
      DecimalRoundTrip(n / 10);
      assert r[..|r| - 1] == Decimal(n / 10);
    }
  }
}
