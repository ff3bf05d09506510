/** The .NET string operations the core relies on, over `seq<char>`:
    `Split`, `string.Join`, `TrimStart`/`TrimEnd`/`Trim` on one character,
    and the decimal rendering of a `long` by `ToString()`. */
module Text {
  import opened Common

  /** `s.Split(sep)` without options: the pieces between the occurrences of
      `sep`, empty pieces included, so "" splits into [""]. */
  function Split(s: string, sep: char): (r: seq<string>)
    ensures |r| >= 1
  {
    if s == [] then [[]]
    else
      var rest := Split(s[1..], sep);
      if s[0] == sep then [[]] + rest
      else [[s[0]] + rest[0]] + rest[1..]
  }

  /** No piece contains the separator. */
  lemma {:induction false} SplitPieces(s: string, sep: char)
    ensures forall i :: 0 <= i < |Split(s, sep)| ==> sep !in Split(s, sep)[i]
  {
    if s != [] {
      SplitPieces(s[1..], sep);
      var rest := Split(s[1..], sep);
      var r := Split(s, sep);
      if s[0] == sep {
        assert r == [[]] + rest;
        assert forall i :: 1 <= i < |r| ==> r[i] == rest[i - 1];
      } else {
        var head := [s[0]] + rest[0];
        assert r == [head] + rest[1..];
        assert sep !in rest[0];
        assert forall ch :: ch in head ==> ch == s[0] || ch in rest[0];
        assert forall i :: 1 <= i < |r| ==> r[i] == rest[i];
      }
    }
  }

  /** There is one piece more than there are separators. */
  lemma {:induction false} SplitCount(s: string, sep: char)
    ensures |Split(s, sep)| == multiset(s)[sep] + 1
  {
    if s != [] {
      assert s == [s[0]] + s[1..];
      SplitCount(s[1..], sep);
    }
  }

  /** `string.Join(sep, parts)`. */
  function Join(parts: seq<string>, sep: char): (r: string)
    ensures |parts| > 0 ==> |parts[0]| <= |r| && r[..|parts[0]|] == parts[0]
    ensures |parts| > 1 ==> |parts[0]| < |r| && r[|parts[0]|] == sep
  {
    if |parts| == 0 then []
    else if |parts| == 1 then parts[0]
    else parts[0] + [sep] + Join(parts[1..], sep)
  }

  /** Joining the pieces of a split gives back the string. */
  lemma {:induction false} JoinSplit(s: string, sep: char)
    ensures Join(Split(s, sep), sep) == s
  {
    if s != [] {
      var rest := Split(s[1..], sep);
      JoinSplit(s[1..], sep);
      assert Join(rest, sep) == s[1..];
      if s[0] == sep {
        var parts := [[]] + rest;
        assert Split(s, sep) == parts;
        assert parts[1..] == rest;
        assert Join(parts, sep) == [] + [sep] + Join(rest, sep);
        assert s == [sep] + s[1..];
      } else if |rest| == 1 {
        var parts := [[s[0]] + rest[0]];
        assert Split(s, sep) == parts;
        assert Join(parts, sep) == [s[0]] + rest[0];
        assert s == [s[0]] + s[1..];
      } else {
        var parts := [[s[0]] + rest[0]] + rest[1..];
        assert Split(s, sep) == parts;
        assert parts[1..] == rest[1..];
        assert Join(parts, sep) == [s[0]] + rest[0] + [sep] + Join(rest[1..], sep);
        assert Join(rest, sep) == rest[0] + [sep] + Join(rest[1..], sep);
        assert s == [s[0]] + s[1..];
      }
    }
  }

  /** Splitting after a separator-free prefix extends the first piece. */
  lemma {:induction false} SplitAfterPrefix(a: string, t: string, sep: char)
    requires sep !in a
    ensures Split(a + t, sep) == [a + Split(t, sep)[0]] + Split(t, sep)[1..]
  {
    var st := Split(t, sep);
    if a == [] {
      assert a + t == t;
      assert st == [st[0]] + st[1..];
      assert a + st[0] == st[0];
    } else {
      assert (a + t)[1..] == a[1..] + t;
      assert (a + t)[0] == a[0];
      SplitAfterPrefix(a[1..], t, sep);
      var rest := Split(a[1..] + t, sep);
      assert rest == [a[1..] + st[0]] + st[1..];
      assert Split(a + t, sep) == [[a[0]] + rest[0]] + rest[1..];
      assert rest[1..] == st[1..];
      assert [a[0]] + (a[1..] + st[0]) == a + st[0];
    }
  }

  /** Splitting a join of separator-free pieces gives back the pieces. */
  lemma {:induction false} SplitJoin(parts: seq<string>, sep: char)
    requires |parts| > 0
    requires forall i :: 0 <= i < |parts| ==> sep !in parts[i]
    ensures Split(Join(parts, sep), sep) == parts
  {
    if |parts| == 1 {
      SplitAfterPrefix(parts[0], [], sep);
      assert parts[0] + [] == parts[0];
    } else {
      var rest := parts[1..];
      SplitJoin(rest, sep);
      assert Join(parts, sep) == parts[0] + [sep] + Join(rest, sep);
      SplitJoinStep(parts[0], Join(rest, sep), rest, sep);
      assert parts == [parts[0]] + rest;
    }
  }

  /** The inductive step of `SplitJoin`: a separator-free piece, the
      separator, then a string whose pieces are `rest`. */
  lemma SplitJoinStep(first: string, j: string, rest: seq<string>, sep: char)
    requires sep !in first && Split(j, sep) == rest
    ensures Split(first + [sep] + j, sep) == [first] + rest
  {
    assert first + [sep] + j == first + ([sep] + j);
    SplitAfterPrefix(first, [sep] + j, sep);
    assert ([sep] + j)[1..] == j;
    var st := Split([sep] + j, sep);
    assert st == [[]] + rest;
    assert st[0] == [] && st[1..] == rest;
    assert first + [] == first;
  }

  /** A string without a trailing separator splits into pieces whose last
      one is not empty. */
  lemma {:induction false} SplitLastNonEmpty(s: string, sep: char)
    requires s != [] && s[|s| - 1] != sep
    ensures var r := Split(s, sep); r[|r| - 1] != []
  {
    var r := Split(s, sep);
    if |s| == 1 {
      assert s[1..] == [];
      var rest := Split(s[1..], sep);
      assert rest == [[]];
      assert r == [[s[0]] + rest[0]] + rest[1..];
    } else {
      var rest := Split(s[1..], sep);
      assert s[1..][|s[1..]| - 1] == s[|s| - 1];
      SplitLastNonEmpty(s[1..], sep);
      if s[0] == sep {
        assert r == [[]] + rest;
      } else {
        assert r == [[s[0]] + rest[0]] + rest[1..];
        if |rest| == 1 {
          assert r[|r| - 1] == [s[0]] + rest[0];
        } else {
          assert r[|r| - 1] == rest[|rest| - 1];
        }
      }
    }
  }

  /** A join ends with its last part (so, when that part is not empty,
      with that part's last character). */
  lemma {:induction false} JoinLast(parts: seq<string>, sep: char)
    requires |parts| > 0
    ensures var j := Join(parts, sep); var p := parts[|parts| - 1];
            |p| <= |j| && j[|j| - |p|..] == p
    ensures var j := Join(parts, sep); var p := parts[|parts| - 1];
            p != [] ==> j != [] && j[|j| - 1] == p[|p| - 1]
  {
    if |parts| > 1 {
      JoinLast(parts[1..], sep);
    }
  }

  /** `s.TrimEnd(c)`: `s` without its trailing run of `c`. */
  function TrimEnd(s: string, c: char): (r: string)
    ensures |r| <= |s| && r == s[..|r|]
    ensures forall i :: |r| <= i < |s| ==> s[i] == c
    ensures r == [] || r[|r| - 1] != c
  {
    if s != [] && s[|s| - 1] == c then TrimEnd(s[..|s| - 1], c) else s
  }

  /** `s.TrimStart(c)`: `s` without its leading run of `c`. */
  function TrimStart(s: string, c: char): (r: string)
    ensures |r| <= |s| && r == s[|s| - |r|..]
    ensures forall i :: 0 <= i < |s| - |r| ==> s[i] == c
    ensures r == [] || r[0] != c
  {
    if s != [] && s[0] == c then TrimStart(s[1..], c) else s
  }

  /** `r` is the infix of `s` at `k`, bordered on both sides only by `c`
      and neither starting nor ending with `c`. */
  ghost predicate TrimmedAt(s: string, r: string, k: nat, c: char)
  {
    && k + |r| <= |s| && r == s[k..k + |r|]
    && (forall i :: 0 <= i < k ==> s[i] == c)
    && (forall i :: k + |r| <= i < |s| ==> s[i] == c)
    && (r == [] || (r[0] != c && r[|r| - 1] != c))
  }

  /** `s.Trim(c)`: `s` = c...c + r + c...c with `r` neither starting nor
      ending with `c`; the leading run is the one `TrimStart` removes. */
  function Trim(s: string, c: char): (r: string)
    ensures TrimmedAt(s, r, |s| - |TrimStart(s, c)|, c)
  {
    var t := TrimStart(s, c);
    var r := TrimEnd(t, c);
    TrimmedInfix(s, t, r, c);
    r
  }

  /** Cutting a leading run of `c` and then a trailing run of `c` leaves an
      infix of `s` that is bordered only by `c` and neither starts nor ends
      with `c`. */
  lemma TrimmedInfix(s: string, t: string, r: string, c: char)
    requires |t| <= |s| && t == s[|s| - |t|..]
    requires forall i :: 0 <= i < |s| - |t| ==> s[i] == c
    requires t == [] || t[0] != c
    requires |r| <= |t| && r == t[..|r|]
    requires forall i :: |r| <= i < |t| ==> t[i] == c
    requires r == [] || r[|r| - 1] != c
    ensures TrimmedAt(s, r, |s| - |t|, c)
  {
    var k := |s| - |t|;
    assert forall i :: k + |r| <= i < |s| ==> s[i] == c by {
      forall i | k + |r| <= i < |s| ensures s[i] == c {
        assert s[i] == t[i - k];
      }
    }
    if r != [] {
      assert r[0] == t[0];
    }
  }

  /** Trimming adds no character: one absent from `s` is absent from its
      trim. */
  lemma TrimKeepsOut(s: string, c: char, x: char)
    requires x !in s
    ensures x !in Trim(s, c)
  {
    var r := Trim(s, c);
    var k := |s| - |TrimStart(s, c)|;
    InfixKeepsOut(s, r, k, x);
  }

  lemma InfixKeepsOut(s: string, r: string, k: nat, x: char)
    requires k + |r| <= |s| && r == s[k..k + |r|] && x !in s
    ensures x !in r
  {
    assert forall j :: 0 <= j < |r| ==> r[j] == s[k + j];
  }

  /** A string that neither starts nor ends with `c` is its own trim. */
  lemma TrimUnchanged(s: string, c: char)
    requires s == [] || (s[0] != c && s[|s| - 1] != c)
    ensures Trim(s, c) == s
  {
  }

  predicate IsDigit(ch: char) { '0' <= ch <= '9' }

  function DigitChar(d: nat): (ch: char)
    requires d < 10
    ensures IsDigit(ch)
  {
    (48 + d) as char
  }

  function DigitValue(ch: char): int { ch as int - 48 }

  /** The decimal digits of `n`, most significant first, without leading
      zeros. */
  function Digits(n: nat): (r: string)
    ensures |r| >= 1
    ensures forall i :: 0 <= i < |r| ==> IsDigit(r[i])
  {
    if n < 10 then [DigitChar(n)] else Digits(n / 10) + [DigitChar(n % 10)]
  }

  /** The number a string of decimal digits denotes. */
  function ParseDigits(s: string): int
  {
    if s == [] then 0 else 10 * ParseDigits(s[..|s| - 1]) + DigitValue(s[|s| - 1])
  }

  lemma {:induction false} DigitsRoundTrip(n: nat)
    ensures ParseDigits(Digits(n)) == n
  {
    if n >= 10 {
      var d := Digits(n);
      assert d[..|d| - 1] == Digits(n / 10);
      DigitsRoundTrip(n / 10);
    }
  }

  /** `long.ToString()`: an optional minus sign, then the digits. */
  function LongToString(n: Long): (r: string)
    ensures r != [] && ',' !in r && IsDigit(r[|r| - 1])
  {
    if n < 0 then "-" + Digits(-(n as int)) else Digits(n)
  }

  /** `long.Parse` on what `LongToString` renders. */
  function ParseLong(s: string): int
  {
    if s != [] && s[0] == '-' then -ParseDigits(s[1..]) else ParseDigits(s)
  }

  /** The rendering loses nothing: parsing it gives back the number. */
  lemma LongRoundTrip(n: Long)
    ensures ParseLong(LongToString(n)) == n
  {
    if n < 0 {
      DigitsRoundTrip(-(n as int));
      assert LongToString(n)[1..] == Digits(-(n as int));
    } else {
      DigitsRoundTrip(n);
    }
  }
}
