/** The .NET string operations the formatter relies on, written out as
    functions over `seq<char>`: `String.Contains`, `String.Replace`,
    `String.Split`, `String.Join`, `new String(' ', n)`, `Int32.ToString`
    and `String.IsNullOrWhiteSpace`, each with the facts the formatter's
    proofs need. */
module Text {
  import opened Wrappers

  /** Number of occurrences of `c` in `s`. */
  function CountOf(s: string, c: char): nat
    decreases |s|
  {
    if s == [] then 0 else (if s[0] == c then 1 else 0) + CountOf(s[1..], c)
  }

  /** `s` with every occurrence of `c` removed. */
  function Without(s: string, c: char): string
    decreases |s|
  {
    if s == [] then [] else (if s[0] == c then [] else [s[0]]) + Without(s[1..], c)
  }

  /** Ordinal `s.Contains(t)`. */
  predicate ContainsSubstring(s: string, t: string)
    decreases |s|
  {
    |t| <= |s| && (s[..|t|] == t || (s != [] && ContainsSubstring(s[1..], t)))
  }

  /** `new String(' ', n)`. */
  function Spaces(n: nat): (r: string)
    ensures |r| == n
    ensures forall i :: 0 <= i < n ==> r[i] == ' '
  {
    seq(n, _ => ' ')
  }

  /** C#'s `string.Length`: the number of UTF-16 code units, which is two
      for a character outside the Basic Multilingual Plane and one otherwise. */
  function Utf16Length(s: string): (n: nat)
    ensures |s| <= n <= 2 * |s|
  {
    if s == [] then 0 else (if s[0] as int > 0xFFFF then 2 else 1) + Utf16Length(s[1..])
  }

  /** The UTF-16 length equals the character count exactly when no character
      needs a surrogate pair. */
  lemma {:induction false} Utf16LengthIsCount(s: string)
    ensures Utf16Length(s) == |s| <==> forall i :: 0 <= i < |s| ==> s[i] as int <= 0xFFFF
    decreases |s|
  {
    if s != [] {
      Utf16LengthIsCount(s[1..]);
      assert forall i :: 1 <= i < |s| ==> s[i] == s[1..][i - 1];
    }
  }

  /** The UTF-16 length of a concatenation is the sum of the parts'. */
  lemma {:induction false} Utf16LengthConcat(a: string, b: string)
    ensures Utf16Length(a + b) == Utf16Length(a) + Utf16Length(b)
    decreases |a|
  {
    if a != [] {
      assert (a + b)[1..] == a[1..] + b;
      Utf16LengthConcat(a[1..], b);
    } else {
      assert a + b == b;
    }
  }

  // ---------------------------------------------------------------------
  // s.Replace("\r\n", "\n")
  // ---------------------------------------------------------------------

  /** Ordinal `s.Replace("\r\n", "\n")`: one left-to-right scan that replaces
      non-overlapping occurrences and does not rescan its own output. */
  function ReplaceCrLf(s: string): string
    decreases |s|
  {
    if |s| >= 2 && s[0] == '\r' && s[1] == '\n' then "\n" + ReplaceCrLf(s[2..])
    else if s == [] then []
    else [s[0]] + ReplaceCrLf(s[1..])
  }

  /** The number of replacements `ReplaceCrLf` makes. */
  function CountCrLf(s: string): nat
    decreases |s|
  {
    if |s| >= 2 && s[0] == '\r' && s[1] == '\n' then 1 + CountCrLf(s[2..])
    else if s == [] then 0
    else CountCrLf(s[1..])
  }

  /** The replacement keeps every line feed, drops exactly one character per
      replaced pair, and the only characters it drops are carriage returns. */
  lemma {:induction false} ReplaceCrLfFacts(s: string)
    ensures CountOf(ReplaceCrLf(s), '\n') == CountOf(s, '\n')
    ensures |ReplaceCrLf(s)| + CountCrLf(s) == |s|
    ensures CountCrLf(s) <= CountOf(s, '\n')
    ensures Without(ReplaceCrLf(s), '\r') == Without(s, '\r')
    decreases |s|
  {
    if |s| >= 2 && s[0] == '\r' && s[1] == '\n' {
      var tail := ReplaceCrLf(s[2..]);
      ReplaceCrLfFacts(s[2..]);
      assert ("\n" + tail)[1..] == tail;
      assert s[1..][1..] == s[2..];
    } else if s != [] {
      var tail := ReplaceCrLf(s[1..]);
      ReplaceCrLfFacts(s[1..]);
      assert ([s[0]] + tail)[1..] == tail;
    }
  }

  /** `s.Contains("\r\n")` can only hold when `s` contains a line feed. */
  lemma {:induction false} CrLfHasLineFeed(s: string)
    requires ContainsSubstring(s, "\r\n")
    ensures '\n' in s
    decreases |s|
  {
    if s[..2] == "\r\n" {
      assert s[1] == '\n';
    } else {
      CrLfHasLineFeed(s[1..]);
    }
  }

  // ---------------------------------------------------------------------
  // s.Split(sep) and String.Join(sep, parts)
  // ---------------------------------------------------------------------

  /** `s.Split(new char[] { sep })`: the pieces between separators, keeping
      empty pieces; there is always one piece more than there are separators. */
  function Split(s: string, sep: char): (parts: seq<string>)
    ensures |parts| == CountOf(s, sep) + 1
    decreases |s|
  {
    if s == [] then [[]]
    else
      var rest := Split(s[1..], sep);
      if s[0] == sep then [[]] + rest
      else [[s[0]] + rest[0]] + rest[1..]
  }

  /** `String.Join(sep, parts)`. */
  function Join(sep: string, parts: seq<string>): string
    decreases |parts|
  {
    if |parts| == 0 then []
    else if |parts| == 1 then parts[0]
    else parts[0] + sep + Join(sep, parts[1..])
  }

  /** No piece of a split contains the separator. */
  lemma {:induction false} SplitPiecesFree(s: string, sep: char)
    ensures forall i :: 0 <= i < |Split(s, sep)| ==> sep !in Split(s, sep)[i]
    decreases |s|
  {
    if s != [] {
      SplitPiecesFree(s[1..], sep);
    }
  }

  /** A string without the separator splits into itself. */
  lemma {:induction false} SplitWithoutSeparator(a: string, sep: char)
    requires sep !in a
    ensures Split(a, sep) == [a]
    decreases |a|
  {
    if a != [] {
      SplitWithoutSeparator(a[1..], sep);
      assert [a[0]] + a[1..] == a;
    }
  }

  /** Splitting peels off a leading separator-free piece. */
  lemma {:induction false} SplitLeadingPiece(a: string, sep: char, r: string)
    requires sep !in a
    ensures Split(a + [sep] + r, sep) == [a] + Split(r, sep)
    decreases |a|
  {
    var s := a + [sep] + r;
    if a == [] {
      assert s[1..] == r;
    } else {
      assert s[1..] == a[1..] + [sep] + r;
      SplitLeadingPiece(a[1..], sep, r);
      assert [a[0]] + a[1..] == a;
    }
  }

  /** Splitting peels off a trailing separator-free piece. */
  lemma {:induction false} SplitTrailingPiece(r: string, sep: char, a: string)
    requires sep !in a
    ensures Split(r + [sep] + a, sep) == Split(r, sep) + [a]
    decreases |r|
  {
    var s := r + [sep] + a;
    if r == [] {
      assert s[1..] == a;
      SplitWithoutSeparator(a, sep);
    } else {
      assert s[1..] == r[1..] + [sep] + a;
      SplitTrailingPiece(r[1..], sep, a);
    }
  }

  /** Joining the pieces of a split with the separator gives back the string. */
  lemma {:induction false} JoinSplit(s: string, sep: char)
    ensures Join([sep], Split(s, sep)) == s
    decreases |s|
  {
    if s != [] {
      var rest := Split(s[1..], sep);
      JoinSplit(s[1..], sep);
      if s[0] == sep {
        assert ([[]] + rest)[1..] == rest;
        assert s == [sep] + s[1..];
      } else {
        var parts := [[s[0]] + rest[0]] + rest[1..];
        if |rest| == 1 {
          assert s == [s[0]] + s[1..];
        } else {
          assert parts[1..] == rest[1..];
          assert Join([sep], rest) == rest[0] + [sep] + Join([sep], rest[1..]);
          assert s == [s[0]] + s[1..];
        }
      }
    }
  }

  /** Splitting a join of separator-free pieces gives back the pieces. */
  lemma {:induction false} SplitJoin(parts: seq<string>, sep: char)
    requires |parts| >= 1
    requires forall i :: 0 <= i < |parts| ==> sep !in parts[i]
    ensures Split(Join([sep], parts), sep) == parts
    decreases |parts|
  {
    if |parts| == 1 {
      SplitWithoutSeparator(parts[0], sep);
    } else {
      SplitJoin(parts[1..], sep);
      SplitLeadingPiece(parts[0], sep, Join([sep], parts[1..]));
      assert [parts[0]] + parts[1..] == parts;
    }
  }

  /** Total length of a sequence of strings. */
  function TotalLength(parts: seq<string>): nat
    decreases |parts|
  {
    if parts == [] then 0 else |parts[0]| + TotalLength(parts[1..])
  }

  /** A join is as long as its pieces plus one separator between each two. */
  lemma {:induction false} JoinLength(sep: string, parts: seq<string>)
    requires |parts| >= 1
    ensures |Join(sep, parts)| == TotalLength(parts) + (|parts| - 1) * |sep|
    decreases |parts|
  {
    if |parts| > 1 {
      JoinLength(sep, parts[1..]);
      assert (|parts| - 1) * |sep| == (|parts| - 2) * |sep| + |sep|;
    } else {
      assert parts[1..] == [];
    }
  }

  /** The pieces of a split are the string without its separators. */
  lemma {:induction false} SplitLength(s: string, sep: char)
    ensures TotalLength(Split(s, sep)) + CountOf(s, sep) == |s|
    decreases |s|
  {
    if s != [] {
      var rest := Split(s[1..], sep);
      SplitLength(s[1..], sep);
      if s[0] == sep {
        assert ([[]] + rest)[1..] == rest;
      } else {
        var parts := [[s[0]] + rest[0]] + rest[1..];
        assert parts[1..] == rest[1..];
        assert TotalLength(rest) == |rest[0]| + TotalLength(rest[1..]);
      }
    }
  }

  // ---------------------------------------------------------------------
  // Int32.ToString() in the invariant culture
  // ---------------------------------------------------------------------

  function DigitChar(d: nat): (c: char)
    requires d < 10
    ensures '0' <= c <= '9'
  {
    ('0' as int + d) as char
  }

  function DigitValue(c: char): (d: nat)
    requires '0' <= c <= '9'
    ensures d < 10
  {
    (c as int - '0' as int) as nat
  }

  predicate AllDigits(s: string) {
    forall i :: 0 <= i < |s| ==> '0' <= s[i] <= '9'
  }

  /** The decimal digits of `n`, most significant first, without leading zeros. */
  function NatToDecimal(n: nat): (s: string)
    ensures |s| >= 1 && AllDigits(s)
    ensures s[0] == '0' ==> n == 0
    decreases n
  {
    if n < 10 then [DigitChar(n)] else NatToDecimal(n / 10) + [DigitChar(n % 10)]
  }

  /** `i.ToString()`: a minus sign for negative values, then the digits. */
  function IntToDecimal(i: int): (s: string)
    ensures |s| >= 1
    ensures forall k :: 0 <= k < |s| ==> s[k] == '-' || '0' <= s[k] <= '9'
  {
    if i < 0 then "-" + NatToDecimal(-i) else NatToDecimal(i)
  }

  /** The value of a string of decimal digits. */
  function ParseDigits(s: string): nat
    requires AllDigits(s)
    decreases |s|
  {
    if s == [] then 0 else ParseDigits(s[..|s| - 1]) * 10 + DigitValue(s[|s| - 1])
  }

  /** `Int32.Parse` on the text `IntToDecimal` produces. */
  function ParseDecimal(s: string): int
    requires |s| >= 1
    requires AllDigits(s) || (s[0] == '-' && AllDigits(s[1..]))
  {
    if s[0] == '-' then 0 - ParseDigits(s[1..]) as int else ParseDigits(s)
  }

  lemma {:induction false} NatToDecimalRoundTrip(n: nat)
    ensures ParseDigits(NatToDecimal(n)) == n
    decreases n
  {
    if n >= 10 {
      var s := NatToDecimal(n);
      var front := NatToDecimal(n / 10);
      NatToDecimalRoundTrip(n / 10);
      assert s == front + [DigitChar(n % 10)];
      assert s[..|s| - 1] == front;
      assert DigitValue(s[|s| - 1]) == n % 10;
      assert ParseDigits(s) == ParseDigits(front) * 10 + n % 10;
    }
  }

  /** The event-id text determines the event id. */
  lemma {:induction false} IntToDecimalRoundTrip(i: int)
    ensures var s := IntToDecimal(i);
      (AllDigits(s) || (s[0] == '-' && AllDigits(s[1..]))) && ParseDecimal(s) == i
  {
    if i < 0 {
      var digits := NatToDecimal(-i);
      NatToDecimalRoundTrip(-i);
      assert ("-" + digits)[1..] == digits;
    } else {
      NatToDecimalRoundTrip(i);
    }
  }

  // ---------------------------------------------------------------------
  // String.IsNullOrWhiteSpace
  // ---------------------------------------------------------------------

  /** `Char.IsWhiteSpace`: the Unicode space, line and paragraph separators
      together with U+0009..U+000D, U+0085 and U+00A0. */
  predicate IsWhiteSpace(c: char) {
    ('\U{0009}' <= c <= '\U{000D}') || c == ' ' || c == '\U{0085}' || c == '\U{00A0}'
    || c == '\U{1680}' || ('\U{2000}' <= c <= '\U{200A}') || c == '\U{2028}' || c == '\U{2029}'
    || c == '\U{202F}' || c == '\U{205F}' || c == '\U{3000}'
  }

  /** `String.IsNullOrWhiteSpace(s)`, with `None` for a null string. */
  predicate IsNullOrWhiteSpace(s: Option<string>) {
    s.None? || forall i :: 0 <= i < |s.value| ==> IsWhiteSpace(s.value[i])
  }

  // ---------------------------------------------------------------------
  // Counting
  // ---------------------------------------------------------------------

  lemma {:induction false} CountOfConcat(a: string, b: string, c: char)
    ensures CountOf(a + b, c) == CountOf(a, c) + CountOf(b, c)
    decreases |a|
  {
    if a == [] {
      assert a + b == b;
    } else {
      assert (a + b)[1..] == a[1..] + b;
      CountOfConcat(a[1..], b, c);
    }
  }

  lemma {:induction false} NoOccurrence(s: string, c: char)
    requires c !in s
    ensures CountOf(s, c) == 0
    decreases |s|
  {
    if s != [] {
      NoOccurrence(s[1..], c);
    }
  }

  lemma {:induction false} PositiveCount(s: string, c: char)
    requires c in s
    ensures CountOf(s, c) >= 1
    decreases |s|
  {
    if s[0] != c {
      PositiveCount(s[1..], c);
    }
  }
}
