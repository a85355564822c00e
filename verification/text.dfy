/** The JavaScript string built-ins the site relies on, over `string` (`seq<char>`):
    `split` and `join` with a one-character separator, `includes`, `padStart`,
    `String(n)` for integers, and `toUpperCase` restricted to ASCII letters. */
module Text {

  // ---------------------------------------------------------------------------
  // split / join
  // ---------------------------------------------------------------------------

  /** `s.split(sep)`: the pieces between separators, in order. As in JavaScript,
      the empty string splits into one empty piece and adjacent separators
      produce empty pieces. */
  function Split(s: string, sep: char): (parts: seq<string>)
    ensures |parts| >= 1
    ensures forall i | 0 <= i < |parts| :: sep !in parts[i]
    decreases |s|
  {
    if |s| == 0 then [""]
    else
      var rest := Split(s[1..], sep);
      if s[0] == sep then [""] + rest
      else [[s[0]] + rest[0]] + rest[1..]
  }

  /** `parts.join(sep)`: the pieces with one separator between neighbours. */
  function Join(parts: seq<string>, sep: char): string
  {
    if |parts| == 0 then ""
    else if |parts| == 1 then parts[0]
    else parts[0] + [sep] + Join(parts[1..], sep)
  }

  /** `parts.join('')`: the pieces glued together. */
  function Concat(parts: seq<string>): string
  {
    if |parts| == 0 then "" else parts[0] + Concat(parts[1..])
  }

  lemma ConcatOfOneOrTwo(a: string, b: string)
    ensures Concat([a]) == a
    ensures Concat([a, b]) == a + b
  {
    assert [a][1..] == [];
    assert [a, b][1..] == [b];
    assert [b][1..] == [];
  }

  /** Joining the pieces of a split gives back the original string. */
  lemma {:induction false} JoinSplit(s: string, sep: char)
    ensures Join(Split(s, sep), sep) == s
    decreases |s|
  {
    if |s| > 0 {
      var rest := Split(s[1..], sep);
      JoinSplit(s[1..], sep);
      if s[0] == sep {
        assert ([""] + rest)[1..] == rest;
      } else if |rest| == 1 {
        assert Join(rest, sep) == rest[0];
      } else {
        var parts := [[s[0]] + rest[0]] + rest[1..];
        assert parts[1..] == rest[1..];
        assert Join(rest, sep) == rest[0] + [sep] + Join(rest[1..], sep);
        assert s == [s[0]] + s[1..];
      }
    }
  }

  /** A string without the separator splits into itself alone. */
  lemma {:induction false} SplitWithoutSeparator(s: string, sep: char)
    requires sep !in s
    ensures Split(s, sep) == [s]
    decreases |s|
  {
    if |s| > 0 {
      SplitWithoutSeparator(s[1..], sep);
      assert [s[0]] + s[1..] == s;
    }
  }

  /** Splitting at the first separator: the piece before it comes first, the rest
      splits on its own. */
  lemma {:induction false} SplitAtFirstSeparator(a: string, sep: char, t: string)
    requires sep !in a
    ensures Split(a + [sep] + t, sep) == [a] + Split(t, sep)
    decreases |a|
  {
    var s := a + [sep] + t;
    if |a| == 0 {
      assert s[1..] == t;
    } else {
      assert s[1..] == a[1..] + [sep] + t;
      SplitAtFirstSeparator(a[1..], sep, t);
      assert [a[0]] + a[1..] == a;
    }
  }

  /** Splitting a join of separator-free pieces gives back the pieces. */
  lemma {:induction false} SplitJoin(parts: seq<string>, sep: char)
    requires |parts| >= 1
    requires forall i | 0 <= i < |parts| :: sep !in parts[i]
    ensures Split(Join(parts, sep), sep) == parts
    decreases |parts|
  {
    if |parts| == 1 {
      SplitWithoutSeparator(parts[0], sep);
    } else {
      SplitJoin(parts[1..], sep);
      SplitAtFirstSeparator(parts[0], sep, Join(parts[1..], sep));
      assert [parts[0]] + parts[1..] == parts;
    }
  }

  // ---------------------------------------------------------------------------
  // includes / prefixes / suffixes / counting
  // ---------------------------------------------------------------------------

  predicate StartsWith(s: string, prefix: string)
  {
    |prefix| <= |s| && s[..|prefix|] == prefix
  }

  predicate EndsWith(s: string, suffix: string)
  {
    |suffix| <= |s| && s[|s| - |suffix|..] == suffix
  }

  /** `s.includes(pattern)`: the pattern occurs at some position of `s`. */
  predicate Contains(s: string, pattern: string)
    decreases |s|
  {
    StartsWith(s, pattern) || (|s| > 0 && Contains(s[1..], pattern))
  }

  /** Number of occurrences of `c` in `s`. */
  function CountChar(s: string, c: char): (n: nat)
    ensures n <= |s|
    ensures n == 0 <==> c !in s
  {
    if |s| == 0 then 0
    else (if s[0] == c then 1 else 0) + CountChar(s[1..], c)
  }

  lemma {:induction false} CountCharAppend(a: string, b: string, c: char)
    ensures CountChar(a + b, c) == CountChar(a, c) + CountChar(b, c)
    decreases |a|
  {
    if |a| == 0 {
      assert a + b == b;
    } else {
      assert (a + b)[1..] == a[1..] + b;
      CountCharAppend(a[1..], b, c);
    }
  }

  /** A join ends with its last piece. */
  lemma {:induction false} JoinEndsWithLast(parts: seq<string>, sep: char)
    requires |parts| >= 1
    ensures EndsWith(Join(parts, sep), parts[|parts| - 1])
    decreases |parts|
  {
    if |parts| > 1 {
      JoinEndsWithLast(parts[1..], sep);
      var tail := Join(parts[1..], sep);
      var whole := parts[0] + [sep] + tail;
      assert whole[|whole| - |tail|..] == tail;
    }
  }

  /** A character that is in no piece and is not the separator is not in the join. */
  lemma {:induction false} JoinAvoids(parts: seq<string>, sep: char, c: char)
    requires c != sep
    requires forall i | 0 <= i < |parts| :: c !in parts[i]
    ensures c !in Join(parts, sep)
    decreases |parts|
  {
    if |parts| > 1 {
      JoinAvoids(parts[1..], sep, c);
    }
  }

  // ---------------------------------------------------------------------------
  // Decimal integers: String(n) and its inverse
  // ---------------------------------------------------------------------------

  predicate IsDigit(c: char)
  {
    '0' <= c <= '9'
  }

  function DigitChar(d: nat): (c: char)
    requires d < 10
    ensures IsDigit(c)
  {
    ['0', '1', '2', '3', '4', '5', '6', '7', '8', '9'][d]
  }

  function DigitValue(c: char): (d: nat)
    requires IsDigit(c)
    ensures d < 10
  {
    (c as int) - ('0' as int)
  }

  /** `String(n)` for a non-negative integer: its decimal digits, most significant
      first, with no leading zero. */
  function NatToString(n: nat): (r: string)
    ensures |r| >= 1
    ensures forall i | 0 <= i < |r| :: IsDigit(r[i])
    ensures r[0] == '0' ==> n == 0
    ensures |r| == 1 <==> n < 10
    ensures |r| == 2 <==> 10 <= n < 100
  {
    if n < 10 then [DigitChar(n)] else NatToString(n / 10) + [DigitChar(n % 10)]
  }

  /** `String(n)` for any integer: a minus sign before the digits of a negative. */
  function IntToString(n: int): (r: string)
    ensures |r| >= 1
    ensures forall i | 0 <= i < |r| :: IsDigit(r[i]) || r[i] == '-'
    ensures n >= 0 <==> r[0] != '-'
  {
    if n < 0 then "-" + NatToString(-n) else NatToString(n)
  }

  /** The value of a string of decimal digits (leading zeros allowed). */
  function ParseNat(s: string): nat
    requires forall i | 0 <= i < |s| :: IsDigit(s[i])
  {
    if |s| == 0 then 0 else ParseNat(s[..|s| - 1]) * 10 + DigitValue(s[|s| - 1])
  }

  /** Reading back the decimal form of `n` gives `n`. */
  lemma {:induction false} ParseNatToString(n: nat)
    ensures ParseNat(NatToString(n)) == n
  {
    if n >= 10 {
      var r := NatToString(n);
      assert r[..|r| - 1] == NatToString(n / 10);
      ParseNatToString(n / 10);
    }
  }

  /** Leading zeros do not change the value of a digit string. */
  lemma {:induction false} ParseNatLeadingZeros(zeros: string, s: string)
    requires forall i | 0 <= i < |zeros| :: zeros[i] == '0'
    requires forall i | 0 <= i < |s| :: IsDigit(s[i])
    ensures ParseNat(zeros + s) == ParseNat(s)
    decreases |s|
  {
    if |s| == 0 {
      assert zeros + s == zeros;
      AllZerosParseToZero(zeros);
    } else {
      assert (zeros + s)[..|zeros + s| - 1] == zeros + s[..|s| - 1];
      ParseNatLeadingZeros(zeros, s[..|s| - 1]);
    }
  }

  lemma {:induction false} AllZerosParseToZero(zeros: string)
    requires forall i | 0 <= i < |zeros| :: zeros[i] == '0'
    ensures ParseNat(zeros) == 0
    decreases |zeros|
  {
    if |zeros| > 0 {
      AllZerosParseToZero(zeros[..|zeros| - 1]);
    }
  }

  // ---------------------------------------------------------------------------
  // padStart
  // ---------------------------------------------------------------------------

  function Repeat(c: char, n: nat): (r: string)
    ensures |r| == n
    ensures forall i | 0 <= i < n :: r[i] == c
  {
    if n == 0 then "" else [c] + Repeat(c, n - 1)
  }

  /** `s.padStart(width, fill)` with a one-character fill: `fill` repeated in front
      of `s` up to `width` characters; a string already that long is unchanged. */
  function PadStart(s: string, width: nat, fill: char): (r: string)
    ensures |r| == if |s| >= width then |s| else width
    ensures EndsWith(r, s)
    ensures forall i | 0 <= i < |r| - |s| :: r[i] == fill
  {
    if |s| >= width then s else Repeat(fill, width - |s|) + s
  }

  // ---------------------------------------------------------------------------
  // toUpperCase (ASCII letters)
  // ---------------------------------------------------------------------------

  function UpperChar(c: char): (u: char)
    ensures 'a' <= c <= 'z' ==> 'A' <= u <= 'Z' && u as int - 'A' as int == c as int - 'a' as int
    ensures !('a' <= c <= 'z') ==> u == c
  {
    if 'a' <= c <= 'z' then (c as int - 32) as char else c
  }

  /** `s.toUpperCase()` for ASCII letters: every lower-case letter replaced by its
      capital, every other character kept; the length never changes. */
  function ToUpper(s: string): (r: string)
    ensures |r| == |s|
    ensures forall i | 0 <= i < |s| :: r[i] == UpperChar(s[i])
  {
    if |s| == 0 then "" else [UpperChar(s[0])] + ToUpper(s[1..])
  }
}
