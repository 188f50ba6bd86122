/** Python string primitives the gateway relies on: `<=` on `str`,
    `str.strip`, `str.rstrip(ch)` and `str.split(sep)`. */
module Text {

  // ---------------------------------------------------------------------------
  // Lexicographic order (Python's `<` and `<=` on str compare code points)
  // ---------------------------------------------------------------------------

  /** `a <= b` on Python strings. Dafny's own `<=` on sequences is the prefix
      order, so the lexicographic order is spelled out here. */
  predicate LexLe(a: string, b: string)
  {
    if a == [] then true
    else if b == [] then false
    else if a[0] != b[0] then a[0] < b[0]
    else LexLe(a[1..], b[1..])
  }

  /** `a < b` on Python strings. */
  predicate LexLt(a: string, b: string)
  {
    LexLe(a, b) && a != b
  }

  lemma {:induction false} LexLeReflexive(a: string)
    ensures LexLe(a, a)
  {
    if a != [] {
      LexLeReflexive(a[1..]);
    }
  }

  lemma {:induction false} LexLeAntisymmetric(a: string, b: string)
    requires LexLe(a, b) && LexLe(b, a)
    ensures a == b
  {
    if a != [] && b != [] {
      LexLeAntisymmetric(a[1..], b[1..]);
      assert a == [a[0]] + a[1..];
      assert b == [b[0]] + b[1..];
    }
  }

  lemma {:induction false} LexLeTransitive(a: string, b: string, c: string)
    requires LexLe(a, b) && LexLe(b, c)
    ensures LexLe(a, c)
  {
    if a != [] && b != [] && c != [] && a[0] == b[0] && b[0] == c[0] {
      LexLeTransitive(a[1..], b[1..], c[1..]);
    }
  }

  lemma {:induction false} LexLeTotal(a: string, b: string)
    ensures LexLe(a, b) || LexLe(b, a)
  {
    if a != [] && b != [] && a[0] == b[0] {
      LexLeTotal(a[1..], b[1..]);
    }
  }

  /** The negation of `<` is `>=`: the fact the descending sort relies on. */
  lemma NotLexLtIsLexGe(a: string, b: string)
    ensures !LexLt(a, b) <==> LexLe(b, a)
  {
    LexLeTotal(a, b);
    if LexLe(b, a) && LexLe(a, b) {
      LexLeAntisymmetric(a, b);
    }
    if LexLe(b, a) && a == b {
      LexLeReflexive(a);
    }
  }

  // ---------------------------------------------------------------------------
  // Whitespace and stripping
  // ---------------------------------------------------------------------------

  /** The characters for which Python's `str.isspace()` holds, i.e. those
      `str.strip()` removes. */
  predicate IsSpace(c: char)
  {
    || '\t' <= c <= '\r' || '\U{1C}' <= c <= ' '
    || c == '\U{85}' || c == '\U{A0}' || c == '\U{1680}'
    || '\U{2000}' <= c <= '\U{200A}'
    || c == '\U{2028}' || c == '\U{2029}' || c == '\U{202F}' || c == '\U{205F}' || c == '\U{3000}'
  }

  /** `s.lstrip()`: drop leading whitespace. */
  function LStrip(s: string): (r: string)
    ensures |r| <= |s|
    ensures r != [] ==> !IsSpace(r[0])
    ensures r == s[|s| - |r|..]
  {
    if s != [] && IsSpace(s[0]) then LStrip(s[1..]) else s
  }

  /** Everything `lstrip` drops is whitespace. */
  lemma {:induction false} LStripDropsSpaces(s: string)
    ensures forall i :: 0 <= i < |s| - |LStrip(s)| ==> IsSpace(s[i])
  {
    if s != [] && IsSpace(s[0]) {
      LStripDropsSpaces(s[1..]);
      forall i | 0 <= i < |s| - |LStrip(s)| ensures IsSpace(s[i]) {
        if i > 0 {
          assert s[i] == s[1..][i - 1];
        }
      }
    }
  }

  /** `s.rstrip()`: drop trailing whitespace. */
  function RStrip(s: string): (r: string)
    ensures |r| <= |s| && r == s[..|r|]
    ensures r != [] ==> !IsSpace(r[|r| - 1])
  {
    if s != [] && IsSpace(s[|s| - 1]) then RStrip(s[..|s| - 1]) else s
  }

  /** Everything `rstrip` drops is whitespace. */
  lemma {:induction false} RStripDropsSpaces(s: string)
    ensures forall i :: |RStrip(s)| <= i < |s| ==> IsSpace(s[i])
  {
    if s != [] && IsSpace(s[|s| - 1]) {
      RStripDropsSpaces(s[..|s| - 1]);
    }
  }

  /** `s.strip()`. */
  function Strip(s: string): (r: string)
  {
    RStrip(LStrip(s))
  }

  /** The stripped text has no whitespace at either end, and it is empty
      exactly when the input is all whitespace. */
  lemma StripSpec(s: string)
    ensures Strip(s) != [] ==> !IsSpace(Strip(s)[0]) && !IsSpace(Strip(s)[|Strip(s)| - 1])
    ensures Strip(s) == [] <==> forall i :: 0 <= i < |s| ==> IsSpace(s[i])
  {
    StripEnds(s);
    if Strip(s) == [] {
      BlankStripAllSpaces(s);
    } else if forall i :: 0 <= i < |s| ==> IsSpace(s[i]) {
      AllSpacesLStripBlank(s);
    }
  }

  lemma {:induction false} AllSpacesLStripBlank(s: string)
    requires forall i :: 0 <= i < |s| ==> IsSpace(s[i])
    ensures LStrip(s) == []
  {
    if s != [] {
      assert forall i :: 0 <= i < |s| - 1 ==> s[1..][i] == s[i + 1];
      AllSpacesLStripBlank(s[1..]);
    }
  }

  lemma BlankStripAllSpaces(s: string)
    requires Strip(s) == []
    ensures forall i :: 0 <= i < |s| ==> IsSpace(s[i])
  {
    var l := LStrip(s);
    var a := |s| - |l|;
    LStripDropsSpaces(s);
    RStripDropsSpaces(l);
    assert s == s[..a] + l;
    AllSpacesConcat(s[..a], l);
  }

  lemma AllSpacesConcat(x: string, y: string)
    requires forall i :: 0 <= i < |x| ==> IsSpace(x[i])
    requires forall i :: 0 <= i < |y| ==> IsSpace(y[i])
    ensures forall i :: 0 <= i < |x + y| ==> IsSpace((x + y)[i])
  {
  }

  lemma StripEnds(s: string)
    ensures Strip(s) != [] ==> !IsSpace(Strip(s)[0]) && !IsSpace(Strip(s)[|Strip(s)| - 1])
  {
    var l := LStrip(s);
    if Strip(s) != [] {
      assert Strip(s)[0] == l[0];
    }
  }

  /** The stripped text is a slice of the input. */
  lemma {:induction false} StripIsSlice(s: string) returns (a: nat)
    ensures a + |Strip(s)| <= |s| && Strip(s) == s[a..a + |Strip(s)|]
  {
    var l := LStrip(s);
    var t := RStrip(l);
    a := |s| - |l|;
    SliceOfSuffix(s, a, |t|);
  }

  lemma SliceOfSuffix(s: string, a: nat, n: nat)
    requires a + n <= |s|
    ensures s[a..][..n] == s[a..a + n]
  {
  }

  /** Stripping twice is stripping once. */
  lemma StripIdempotent(s: string)
    ensures Strip(Strip(s)) == Strip(s)
  {
    var t := Strip(s);
    StripSpec(s);
    if t != [] {
      assert LStrip(t) == t;
      assert RStrip(t) == t;
    }
  }

  /** `s.rstrip(c)`: drop every trailing occurrence of one character. */
  function RStripChar(s: string, c: char): (r: string)
    ensures r <= s
    ensures r != [] ==> r[|r| - 1] != c
    ensures forall i :: |r| <= i < |s| ==> s[i] == c
  {
    if s != [] && s[|s| - 1] == c then RStripChar(s[..|s| - 1], c) else s
  }

  // ---------------------------------------------------------------------------
  // Splitting on a separator
  // ---------------------------------------------------------------------------

  /** Number of occurrences of `c` in `s`. */
  function Count(s: string, c: char): nat
  {
    if s == [] then 0 else (if s[0] == c then 1 else 0) + Count(s[1..], c)
  }

  /** `s.split(sep)` with an explicit one-character separator: always at least
      one piece (`"".split(",") == [""]`), empty pieces kept. */
  function Split(s: string, sep: char): (r: seq<string>)
    ensures |r| >= 1
  {
    if s == [] then [[]]
    else
      var rest := Split(s[1..], sep);
      if s[0] == sep then [[]] + rest
      else [[s[0]] + rest[0]] + rest[1..]
  }

  /** `sep.join(parts)`: the inverse of `Split`; joining no parts gives "". */
  function Join(parts: seq<string>, sep: char): string
  {
    if parts == [] then []
    else if |parts| == 1 then parts[0] else parts[0] + [sep] + Join(parts[1..], sep)
  }

  /** `c` does not occur in `p`. */
  predicate Avoids(p: string, c: char)
  {
    forall j :: 0 <= j < |p| ==> p[j] != c
  }

  lemma AvoidsSlice(p: string, c: char, a: nat, b: nat)
    requires Avoids(p, c) && a <= b <= |p|
    ensures Avoids(p[a..b], c)
  {
    forall j | 0 <= j < b - a ensures p[a..b][j] != c {
      assert p[a..b][j] == p[a + j];
    }
  }

  /** Splitting yields one more piece than there are separators, no piece
      contains the separator, and joining the pieces gives the input back. */
  lemma SplitSpec(s: string, sep: char)
    ensures |Split(s, sep)| == Count(s, sep) + 1
    ensures forall i :: 0 <= i < |Split(s, sep)| ==> Avoids(Split(s, sep)[i], sep)
    ensures Join(Split(s, sep), sep) == s
  {
    SplitCount(s, sep);
    SplitAvoids(s, sep);
    SplitJoinBack(s, sep);
  }

  lemma {:induction false} SplitCount(s: string, sep: char)
    ensures |Split(s, sep)| == Count(s, sep) + 1
  {
    if s != [] {
      SplitCount(s[1..], sep);
    }
  }

  lemma {:induction false} SplitAvoids(s: string, sep: char)
    ensures forall i :: 0 <= i < |Split(s, sep)| ==> Avoids(Split(s, sep)[i], sep)
  {
    if s != [] {
      SplitAvoids(s[1..], sep);
      var rest := Split(s[1..], sep);
      var r := Split(s, sep);
      if s[0] == sep {
        assert r == [[]] + rest;
        forall i | 0 < i < |r| ensures Avoids(r[i], sep) {
          assert r[i] == rest[i - 1];
        }
      } else {
        assert r == [[s[0]] + rest[0]] + rest[1..];
        assert Avoids(rest[0], sep);
        forall i | 0 <= i < |r| ensures Avoids(r[i], sep) {
          if i > 0 {
            assert r[i] == rest[i];
          }
        }
      }
    }
  }

  lemma {:induction false} SplitJoinBack(s: string, sep: char)
    ensures Join(Split(s, sep), sep) == s
  {
    if s != [] {
      SplitJoinBack(s[1..], sep);
      SplitJoinStep(s, sep);
    }
  }

  /** The step of `SplitJoinBack`: the first character goes back in front,
      as a separator or glued to the first piece. */
  lemma SplitJoinStep(s: string, sep: char)
    requires s != [] && Join(Split(s[1..], sep), sep) == s[1..]
    ensures Join(Split(s, sep), sep) == s
  {
    var rest := Split(s[1..], sep);
    if s[0] == sep {
      assert Split(s, sep) == [[]] + rest;
      JoinConsEmpty(rest, sep);
    } else {
      assert Split(s, sep) == [[s[0]] + rest[0]] + rest[1..];
      JoinConsHead(s[0], rest, sep);
    }
    assert s == [s[0]] + s[1..];
  }

  /** An empty first piece leaves just the separator in front. */
  lemma JoinConsEmpty(parts: seq<string>, sep: char)
    requires |parts| >= 1
    ensures Join([[]] + parts, sep) == [sep] + Join(parts, sep)
  {
    assert ([[]] + parts)[1..] == parts;
  }

  /** A character glued to the first piece comes first in the joined text. */
  lemma JoinConsHead(c: char, parts: seq<string>, sep: char)
    requires |parts| >= 1
    ensures Join([[c] + parts[0]] + parts[1..], sep) == [c] + Join(parts, sep)
  {
    var q := [[c] + parts[0]] + parts[1..];
    assert q[1..] == parts[1..];
    if |parts| > 1 {
      assert Join(q, sep) == ([c] + parts[0]) + [sep] + Join(parts[1..], sep);
    }
  }

  /** Splitting respects concatenation: the pieces of `a` come first, in
      order, then those of `b`. */
  lemma {:induction false} SplitConcat(a: string, b: string, sep: char)
    ensures Split(a + [sep] + b, sep) == Split(a, sep) + Split(b, sep)
  {
    var s := a + [sep] + b;
    if a == [] {
      assert s == [sep] + b;
      assert s[1..] == b;
    } else {
      assert s[1..] == a[1..] + [sep] + b;
      SplitConcat(a[1..], b, sep);
      var ra := Split(a[1..], sep);
      var rest := Split(s[1..], sep);
      assert rest == ra + Split(b, sep);
      if a[0] == sep {
        assert s[0] == sep;
      }
    }
  }

  // ---------------------------------------------------------------------------
  // Substrings and decimal numerals
  // ---------------------------------------------------------------------------

  /** `needle in hay` on Python strings: a substring test. */
  predicate Contains(hay: string, needle: string)
  {
    needle <= hay || (hay != [] && Contains(hay[1..], needle))
  }

  predicate IsDigit(c: char)
  {
    '0' <= c <= '9'
  }

  function DigitChar(d: nat): (c: char)
    requires d < 10
    ensures IsDigit(c)
  {
    ['0', '1', '2', '3', '4', '5', '6', '7', '8', '9'][d]
  }

  function DigitValue(c: char): nat
    requires IsDigit(c)
  {
    (c - '0') as nat
  }

  lemma DigitRoundTrip(d: nat)
    requires d < 10
    ensures DigitValue(DigitChar(d)) == d
  {
  }

  /** The decimal numeral of `n`, without leading zeros (`str(n)` for
      `n >= 0`). */
  function Digits(n: nat): (r: string)
    ensures |r| >= 1
    ensures forall i :: 0 <= i < |r| ==> IsDigit(r[i])
  {
    if n < 10 then [DigitChar(n)] else Digits(n / 10) + [DigitChar(n % 10)]
  }

  /** `str(n)` for any integer. */
  function IntStr(n: int): string
  {
    if n < 0 then "-" + Digits(-n) else Digits(n)
  }

  /** The value of a string of decimal digits (`int(s)`). */
  function ParseDigits(s: string): nat
    requires forall i :: 0 <= i < |s| ==> IsDigit(s[i])
  {
    if s == [] then 0 else ParseDigits(s[..|s| - 1]) * 10 + DigitValue(s[|s| - 1])
  }

  function Pow10(k: nat): (r: nat)
    ensures r >= 1
  {
    if k == 0 then 1 else 10 * Pow10(k - 1)
  }

  /** Reading back the numeral of `n` gives `n`. */
  lemma {:induction false} DigitsRoundTrip(n: nat)
    ensures ParseDigits(Digits(n)) == n
  {
    if n >= 10 {
      DigitsRoundTrip(n / 10);
      var d := Digits(n / 10) + [DigitChar(n % 10)];
      assert d[..|d| - 1] == Digits(n / 10);
      DigitRoundTrip(n % 10);
    } else {
      DigitRoundTrip(n);
    }
  }

  /** A number below `10^k` has at most `k` digits. */
  lemma {:induction false} DigitsLength(n: nat, k: nat)
    requires 1 <= k && n < Pow10(k)
    ensures |Digits(n)| <= k
  {
    if n >= 10 {
      DigitsLength(n / 10, k - 1);
    }
  }

  /** Leading digits scale by the length of what follows. */
  lemma {:induction false} ParseDigitsConcat(a: string, b: string)
    requires forall i :: 0 <= i < |a| ==> IsDigit(a[i])
    requires forall i :: 0 <= i < |b| ==> IsDigit(b[i])
    ensures ParseDigits(a + b) == ParseDigits(a) * Pow10(|b|) + ParseDigits(b)
  {
    if b == [] {
      assert a + b == a;
    } else {
      var ab := a + b;
      var init := b[..|b| - 1];
      assert ab[..|ab| - 1] == a + init;
      assert ab[|ab| - 1] == b[|b| - 1];
      ParseDigitsConcat(a, init);
      var x, y, z, d := ParseDigits(a), Pow10(|init|), ParseDigits(init), DigitValue(b[|b| - 1]);
      ShiftDigit(ParseDigits(ab), ParseDigits(a + init), ParseDigits(b), Pow10(|b|), x, y, z, d);
    }
  }

  lemma ShiftDigit(pab: int, pai: int, pb: int, pw: int, x: int, y: int, z: int, d: int)
    requires pai == x * y + z && pab == pai * 10 + d
    requires pb == z * 10 + d && pw == 10 * y
    ensures pab == x * pw + pb
  {
  }

  /** `n` copies of `c`. */
  function Repeat(c: char, n: nat): (r: string)
    ensures |r| == n && forall i :: 0 <= i < n ==> r[i] == c
  {
    if n == 0 then [] else Repeat(c, n - 1) + [c]
  }

  lemma {:induction false} ZerosParse(n: nat)
    ensures ParseDigits(Repeat('0', n)) == 0
  {
    if n > 0 {
      ZerosParse(n - 1);
      assert Repeat('0', n)[..n - 1] == Repeat('0', n - 1);
    }
  }

  /** `f"{s:0>w}"`: left-pad with zeros to width `w`; never truncates. */
  function ZeroPad(s: string, w: nat): (r: string)
    ensures |r| == if |s| < w then w else |s|
  {
    if |s| < w then Repeat('0', w - |s|) + s else s
  }

  lemma ZeroTimes(y: int)
    ensures 0 * y == 0
  {
  }

  /** Zero padding does not change the value of a numeral. */
  lemma ZeroPadParse(s: string, w: nat)
    requires forall i :: 0 <= i < |s| ==> IsDigit(s[i])
    ensures forall i :: 0 <= i < |ZeroPad(s, w)| ==> IsDigit(ZeroPad(s, w)[i])
    ensures ParseDigits(ZeroPad(s, w)) == ParseDigits(s)
  {
    if |s| < w {
      var z := Repeat('0', w - |s|);
      var p := z + s;
      forall i | 0 <= i < |p| ensures IsDigit(p[i]) {
        if i < |z| {
          assert p[i] == z[i];
        } else {
          assert p[i] == s[i - |z|];
        }
      }
      ZerosParse(w - |s|);
      ParseDigitsConcat(z, s);
      ZeroTimes(Pow10(|s|));
    }
  }
}
