/** An optional value: PHP's `null` beside a value of some type. */
module Optional {
  datatype Option<T> = None | Some(value: T) {
    function GetOr(default: T): T {
      match this
      case Some(v) => v
      case None => default
    }
  }
}

/**
  The PHP string built-ins that the search-term compiler and the feed editor
  call, over strings as sequences of characters: `explode`, `trim`,
  `str_starts_with`, `str_ends_with`, `str_replace`, the `(int)` cast of a
  string, `filter_var(..., FILTER_VALIDATE_BOOLEAN)` and ASCII case mapping.
*/
module PhpStrings {

  predicate StartsWith(s: string, prefix: string) {
    |prefix| <= |s| && s[..|prefix|] == prefix
  }

  /** A string does not start with a prefix whose first character differs from its own. */
  lemma FirstCharDiffers(s: string, prefix: string)
    requires |s| > 0 && |prefix| > 0 && s[0] != prefix[0]
    ensures !StartsWith(s, prefix)
  {
    if |prefix| <= |s| {
      assert s[..|prefix|][0] == s[0];
    }
  }

  predicate EndsWith(s: string, suffix: string) {
    |suffix| <= |s| && s[|s| - |suffix|..] == suffix
  }

  // ---------------------------------------------------------------------
  // explode / implode with a one-character separator
  // ---------------------------------------------------------------------

  /** `explode(sep, s)`: the pieces of `s` between occurrences of `sep`;
      the empty string gives one empty piece. */
  function Explode(s: string, sep: char): (parts: seq<string>)
    ensures |parts| >= 1
    ensures forall i :: 0 <= i < |parts| ==> sep !in parts[i]
    ensures |parts| >= 2 <==> sep in s
    decreases |s|
  {
    if |s| == 0 then [""]
    else
      var rest := Explode(s[1..], sep);
      if s[0] == sep then [""] + rest
      else [[s[0]] + rest[0]] + rest[1..]
  }

  /** `implode(sep, parts)`, the inverse of `Explode`. */
  function Implode(parts: seq<string>, sep: char): string
    requires |parts| >= 1
  {
    if |parts| == 1 then parts[0] else parts[0] + [sep] + Implode(parts[1..], sep)
  }

  /** Nothing is lost by exploding: joining the pieces back gives the input. */
  lemma {:induction false} ImplodeExplode(s: string, sep: char)
    ensures Implode(Explode(s, sep), sep) == s
    decreases |s|
  {
    if |s| > 0 {
      var rest := Explode(s[1..], sep);
      ImplodeExplode(s[1..], sep);
      if s[0] == sep {
        ImplodeEmptyFirst(rest, sep);
      } else {
        ImplodeLongerFirst(s[0], rest, sep);
      }
      assert s == [s[0]] + s[1..];
    }
  }

  lemma ImplodeEmptyFirst(parts: seq<string>, sep: char)
    requires |parts| >= 1
    ensures Implode([""] + parts, sep) == [sep] + Implode(parts, sep)
  {
    assert ([""] + parts)[1..] == parts;
  }

  lemma ImplodeLongerFirst(c: char, parts: seq<string>, sep: char)
    requires |parts| >= 1
    ensures Implode([[c] + parts[0]] + parts[1..], sep) == [c] + Implode(parts, sep)
  {
    var longer := [[c] + parts[0]] + parts[1..];
    if |parts| > 1 {
      assert longer[1..] == parts[1..];
      assert Implode(longer, sep) == [c] + parts[0] + [sep] + Implode(parts[1..], sep);
    }
  }

  /** Exploding a text whose first separator follows `head` yields `head`
      first and then the pieces of what follows that separator. */
  lemma {:induction false} ExplodeAtFirst(head: string, sep: char, tail: string)
    requires sep !in head
    ensures Explode(head + [sep] + tail, sep) == [head] + Explode(tail, sep)
    decreases |head|
  {
    var s := head + [sep] + tail;
    if |head| == 0 {
      assert s[0] == sep && s[1..] == tail;
    } else {
      assert s[0] == head[0];
      assert s[1..] == head[1..] + [sep] + tail;
      ExplodeAtFirst(head[1..], sep, tail);
      assert [head[0]] + head[1..] == head;
    }
  }

  /** A text free of the separator is one piece. */
  lemma {:induction false} ExplodeWithout(s: string, sep: char)
    requires sep !in s
    ensures Explode(s, sep) == [s]
    decreases |s|
  {
    if |s| > 0 {
      ExplodeWithout(s[1..], sep);
      assert [s[0]] + s[1..] == s;
    }
  }

  /** `v` between the first and the second separator of `key + sep + v + rest`
      (where `rest` is empty or starts with the separator) is the second piece:
      whatever follows a second separator is not part of it. */
  lemma SecondPiece(key: string, v: string, rest: string, sep: char)
    requires sep !in key && sep !in v
    requires rest == [] || rest[0] == sep
    ensures |Explode(key + [sep] + v + rest, sep)| >= 2
    ensures Explode(key + [sep] + v + rest, sep)[0] == key
    ensures Explode(key + [sep] + v + rest, sep)[1] == v
  {
    ExplodeAtFirst(key, sep, v + rest);
    assert key + [sep] + v + rest == key + [sep] + (v + rest);
    var tailParts := Explode(v + rest, sep);
    assert Explode(key + [sep] + v + rest, sep) == [key] + tailParts;
    if rest == [] {
      assert v + rest == v;
      ExplodeWithout(v, sep);
      assert tailParts == [v];
    } else {
      assert rest == [sep] + rest[1..];
      assert v + rest == v + [sep] + rest[1..];
      ExplodeAtFirst(v, sep, rest[1..]);
      assert tailParts[0] == v;
    }
  }

  /** Some piece of `parts` is one of `words` (`array_intersect(parts, words) !== []`). */
  predicate Meets(parts: seq<string>, words: set<string>) {
    exists i :: 0 <= i < |parts| && parts[i] in words
  }

  // ---------------------------------------------------------------------
  // trim
  // ---------------------------------------------------------------------

  /** The characters `trim` strips by default: space, tab, newline, carriage
      return, NUL and vertical tab. */
  const TrimChars: set<char> := {' ', '\t', '\n', '\r', '\0', '\U{B}'}

  /** How many characters of `chars` start `s`. */
  function LeadingBlanks(s: string, chars: set<char>): (n: nat)
    ensures n <= |s|
    ensures forall i :: 0 <= i < n ==> s[i] in chars
    ensures n == |s| || s[n] !in chars
    decreases |s|
  {
    if |s| > 0 && s[0] in chars then 1 + LeadingBlanks(s[1..], chars) else 0
  }

  /** The length of `s` without the characters of `chars` that end it. */
  function KeptLength(s: string, chars: set<char>): (n: nat)
    ensures n <= |s|
    ensures forall i :: n <= i < |s| ==> s[i] in chars
    ensures n == 0 || s[n - 1] !in chars
    decreases |s|
  {
    if |s| > 0 && s[|s| - 1] in chars then KeptLength(s[..|s| - 1], chars) else |s|
  }

  /** `ltrim(s, chars)` */
  function TrimLeft(s: string, chars: set<char>): string {
    s[LeadingBlanks(s, chars)..]
  }

  /** `rtrim(s, chars)` */
  function TrimRight(s: string, chars: set<char>): string {
    s[..KeptLength(s, chars)]
  }

  /** Nothing is trimmed from the left of a string that starts with a kept character. */
  lemma TrimLeftStops(s: string, chars: set<char>)
    requires s == [] || s[0] !in chars
    ensures TrimLeft(s, chars) == s
  {
    assert LeadingBlanks(s, chars) == 0;
  }

  /** Nothing is trimmed from the right of a string that ends with a kept character. */
  lemma TrimRightStops(s: string, chars: set<char>)
    requires s == [] || s[|s| - 1] !in chars
    ensures TrimRight(s, chars) == s
  {
    assert KeptLength(s, chars) == |s|;
  }

  function TrimBy(s: string, chars: set<char>): string {
    TrimRight(TrimLeft(s, chars), chars)
  }

  /** `trim(s)` */
  function Trim(s: string): string {
    TrimBy(s, TrimChars)
  }

  /** Trimming removes exactly the blank margins: the result is an infix of
      the input that starts at `a`, neither end of it is blank, and everything
      cut off is blank. */
  lemma TrimShape(s: string, chars: set<char>, r: string, a: int)
    requires r == TrimBy(s, chars) && a == LeadingBlanks(s, chars)
    ensures 0 <= a <= |s| - |r| && r == s[a..a + |r|]
    ensures forall i :: 0 <= i < a ==> s[i] in chars
    ensures forall i :: a + |r| <= i < |s| ==> s[i] in chars
    ensures r == [] || (r[0] !in chars && r[|r| - 1] !in chars)
  {
    var l := s[a..];
    assert l == [] || l[0] == s[a];
    PrefixOfSuffix(s, l, r, a, chars);
  }

  /** `r` is a prefix of the suffix `l` of `s` that starts at `a`, and what
      `l` has beyond `r` is in `chars`. */
  lemma PrefixOfSuffix(s: string, l: string, r: string, a: int, chars: set<char>)
    requires 0 <= a <= |s| && l == s[a..]
    requires |r| <= |l| && r == l[..|r|]
    requires forall i :: |r| <= i < |l| ==> l[i] in chars
    requires l == [] || l[0] !in chars
    requires r == [] || r[|r| - 1] !in chars
    ensures r == s[a..a + |r|]
    ensures forall i :: a + |r| <= i < |s| ==> s[i] in chars
    ensures r == [] || (r[0] !in chars && r[|r| - 1] !in chars)
  {
    forall i | a + |r| <= i < |s| ensures s[i] in chars {
      assert s[i] == l[i - a];
    }
    assert r != [] ==> r[0] == l[0];
  }

  /** `trim` leaves the empty string exactly for an all-blank input. */
  lemma TrimEmptyIffBlank(s: string)
    ensures Trim(s) == [] <==> forall i :: 0 <= i < |s| ==> s[i] in TrimChars
  {
    TrimShape(s, TrimChars, Trim(s), LeadingBlanks(s, TrimChars));
  }

  /** A string whose ends are not blank is its own trim. */
  lemma TrimKeeps(s: string)
    requires s == [] || (s[0] !in TrimChars && s[|s| - 1] !in TrimChars)
    ensures Trim(s) == s
  {
    TrimLeftStops(s, TrimChars);
    TrimRightStops(s, TrimChars);
  }

  /** Margins drawn from `chars` around a text whose ends are not in `chars`
      are exactly what trimming by `chars` removes. */
  lemma TrimByPadded(pre: string, core: string, post: string, chars: set<char>)
    requires forall i :: 0 <= i < |pre| ==> pre[i] in chars
    requires forall i :: 0 <= i < |post| ==> post[i] in chars
    requires core != [] && core[0] !in chars && core[|core| - 1] !in chars
    ensures TrimBy(pre + core + post, chars) == core
  {
    var s := pre + core + post;
    var r := TrimBy(s, chars);
    var a := LeadingBlanks(s, chars);
    TrimShape(s, chars, r, a);
    var first, last := |pre|, |pre| + |core| - 1;
    assert s[first] == core[0] && s[last] == core[|core| - 1];
    assert forall i :: 0 <= i < first ==> s[i] == pre[i];
    assert forall i :: last < i < |s| ==> s[i] == post[i - last - 1];
    assert a == first;
    assert r != [];
    assert a + |r| - 1 == last;
    assert r == s[first..last + 1] == core;
  }

  /** Blank margins around a text whose ends are not blank are exactly what
      `trim` removes. */
  lemma TrimPadded(pre: string, core: string, post: string)
    requires forall i :: 0 <= i < |pre| ==> pre[i] in TrimChars
    requires forall i :: 0 <= i < |post| ==> post[i] in TrimChars
    requires core != [] && core[0] !in TrimChars && core[|core| - 1] !in TrimChars
    ensures Trim(pre + core + post) == core
  {
    TrimByPadded(pre, core, post, TrimChars);
  }

  /** Trimming twice is trimming once. */
  lemma TrimIdempotent(s: string)
    ensures Trim(Trim(s)) == Trim(s)
  {
    var r := Trim(s);
    TrimShape(s, TrimChars, r, LeadingBlanks(s, TrimChars));
    TrimKeeps(r);
  }

  // ---------------------------------------------------------------------
  // ASCII case mapping
  // ---------------------------------------------------------------------

  function UpperChar(c: char): char {
    if 'a' <= c <= 'z' then (c as int - 32) as char else c
  }

  function LowerChar(c: char): char {
    if 'A' <= c <= 'Z' then (c as int + 32) as char else c
  }

  /** `mb_strtoupper` restricted to ASCII letters. */
  function Upper(s: string): (r: string)
    ensures |r| == |s|
  {
    seq(|s|, i requires 0 <= i < |s| => UpperChar(s[i]))
  }

  /** `strtolower` on ASCII letters. */
  function Lower(s: string): (r: string)
    ensures |r| == |s|
  {
    seq(|s|, i requires 0 <= i < |s| => LowerChar(s[i]))
  }

  lemma CaseOfCapital(c: char, capital: char)
    requires 'A' <= capital <= 'Z'
    ensures UpperChar(c) == capital <==> LowerChar(c) == LowerChar(capital)
  {
  }

  /** A text of capital letters is the upper case of `s` exactly when its
      lower case is the lower case of `s`: case mapping loses nothing else. */
  lemma UpperMatchesIffLowerMatches(s: string, capitals: string)
    requires forall i :: 0 <= i < |capitals| ==> 'A' <= capitals[i] <= 'Z'
    ensures Upper(s) == capitals <==> Lower(s) == Lower(capitals)
  {
    if Lower(s) == Lower(capitals) {
      assert |s| == |capitals|;
      forall i | 0 <= i < |s| ensures Upper(s)[i] == capitals[i] {
        assert Lower(s)[i] == LowerChar(s[i]);
        assert Lower(capitals)[i] == LowerChar(capitals[i]);
        CaseOfCapital(s[i], capitals[i]);
      }
    }
    if Upper(s) == capitals {
      forall i | 0 <= i < |s| ensures Lower(s)[i] == Lower(capitals)[i] {
        assert Upper(s)[i] == UpperChar(s[i]);
        CaseOfCapital(s[i], capitals[i]);
      }
    }
  }

  // ---------------------------------------------------------------------
  // str_replace
  // ---------------------------------------------------------------------

  /** `str_replace(pat, rep, s)`: every occurrence of `pat`, scanned from the
      left without overlaps, replaced by `rep`. */
  function ReplaceAll(s: string, pat: string, rep: string): string
    requires |pat| > 0
    decreases |s|
  {
    if |s| < |pat| then s
    else if s[..|pat|] == pat then rep + ReplaceAll(s[|pat|..], pat, rep)
    else [s[0]] + ReplaceAll(s[1..], pat, rep)
  }

  /** Replacing a suffix `-x...` in a text `h` that has no `-` touches only
      the suffix. */
  lemma {:induction false} ReplaceDashSuffix(h: string, pat: string, rep: string)
    requires |pat| > 0 && pat[0] == '-'
    requires '-' !in h
    ensures ReplaceAll(h + pat, pat, rep) == h + rep
    decreases |h|
  {
    var s := h + pat;
    if |h| == 0 {
      assert s == pat && s[..|pat|] == pat && s[|pat|..] == [];
    } else {
      assert s[0] == h[0] && h[0] != '-';
      assert s[..|pat|] != pat by { assert s[..|pat|][0] == h[0]; }
      assert s[1..] == h[1..] + pat;
      ReplaceDashSuffix(h[1..], pat, rep);
      assert [h[0]] + (h[1..] + rep) == h + rep;
    }
  }

  // ---------------------------------------------------------------------
  // (int) cast of a string
  // ---------------------------------------------------------------------

  const MinInt: int := -0x8000_0000_0000_0000
  const MaxInt: int := 0x7FFF_FFFF_FFFF_FFFF

  /** The blanks PHP's numeric-string reader skips before a number. */
  const NumericBlanks: set<char> := {' ', '\t', '\n', '\r', '\U{B}', '\U{C}'}

  predicate IsDigit(c: char) { '0' <= c <= '9' }

  /** How many decimal digits start `s`. */
  function DigitCount(s: string): (n: nat)
    ensures n <= |s|
    ensures forall i :: 0 <= i < n ==> IsDigit(s[i])
    ensures n == |s| || !IsDigit(s[n])
    decreases |s|
  {
    if |s| > 0 && IsDigit(s[0]) then 1 + DigitCount(s[1..]) else 0
  }

  /** The longest run of decimal digits at the start of `s`. */
  function LeadingDigits(s: string): string {
    s[..DigitCount(s)]
  }

  /** The value of a string of decimal digits (it is only applied to such strings). */
  function DigitsValue(d: string): int
    decreases |d|
  {
    if |d| == 0 then 0 else DigitsValue(d[..|d| - 1]) * 10 + (d[|d| - 1] as int - '0' as int)
  }

  /** PHP saturates an integer that does not fit in 64 bits. */
  function Saturate(n: int): (r: int)
    ensures MinInt <= r <= MaxInt
    ensures MinInt <= n <= MaxInt ==> r == n
  {
    if n < MinInt then MinInt else if n > MaxInt then MaxInt else n
  }

  /** `(int) s`: after leading blanks, an optional sign and the leading
      decimal digits; no digits gives 0. */
  function IntCast(s: string): (n: int)
    ensures MinInt <= n <= MaxInt
  {
    var t := TrimLeft(s, NumericBlanks);
    if |t| > 0 && (t[0] == '-' || t[0] == '+') then
      var m := DigitsValue(LeadingDigits(t[1..]));
      Saturate(if t[0] == '-' then -m else m)
    else
      Saturate(DigitsValue(LeadingDigits(t)))
  }

  /** The decimal spelling of a natural number, without leading zeros. */
  function Decimal(n: nat): (d: string)
    ensures |d| >= 1 && forall i :: 0 <= i < |d| ==> IsDigit(d[i])
  {
    if n < 10 then [('0' as int + n) as char]
    else Decimal(n / 10) + [('0' as int + n % 10) as char]
  }

  lemma {:induction false} DigitsValueOfDecimal(n: nat)
    ensures DigitsValue(Decimal(n)) == n
  {
    if n >= 10 {
      DigitsValueOfDecimal(n / 10);
      var d := Decimal(n);
      assert d[..|d| - 1] == Decimal(n / 10);
    }
  }

  lemma {:induction false} LeadingDigitsOfDigits(d: string)
    requires forall i :: 0 <= i < |d| ==> IsDigit(d[i])
    ensures LeadingDigits(d) == d
    decreases |d|
  {
    if |d| > 0 {
      LeadingDigitsOfDigits(d[1..]);
      assert DigitCount(d[1..]) == |d| - 1;
    }
  }

  /** A decimal numeral is not changed by `trim`. */
  lemma DecimalTrims(n: nat)
    ensures Trim(Decimal(n)) == Decimal(n)
  {
    var d := Decimal(n);
    assert IsDigit(d[0]) && IsDigit(d[|d| - 1]);
    TrimKeeps(d);
  }

  /** The cast reads back every non-negative 64-bit integer from its decimal spelling. */
  lemma IntCastOfDecimal(n: nat)
    requires n <= MaxInt
    ensures IntCast(Decimal(n)) == n
  {
    IntCastOfDigits(Decimal(n));
    DigitsValueOfDecimal(n);
  }

  /** The cast reads a string of digits as its value, saturated. */
  lemma IntCastOfDigits(d: string)
    requires |d| >= 1 && forall i :: 0 <= i < |d| ==> IsDigit(d[i])
    ensures IntCast(d) == Saturate(DigitsValue(d))
  {
    IntCastUnsigned(d);
    LeadingDigitsOfDigits(d);
  }

  /** Without blanks or a sign in front, the cast reads the leading digits. */
  lemma IntCastUnsigned(s: string)
    requires |s| >= 1 && IsDigit(s[0])
    ensures IntCast(s) == Saturate(DigitsValue(LeadingDigits(s)))
  {
    TrimLeftStops(s, NumericBlanks);
    assert s[0] != '-' && s[0] != '+';
  }

  // ---------------------------------------------------------------------
  // filter_var(s, FILTER_VALIDATE_BOOLEAN)
  // ---------------------------------------------------------------------

  /** The blanks the boolean filter strips around its input. */
  const FilterBlanks: set<char> := {' ', '\t', '\n', '\r', '\U{B}'}

  /** The spellings the boolean filter reads as true, compared without regard to case. */
  const TrueWords: set<string> := {"1", "true", "on", "yes"}

  /** `filter_var(s, FILTER_VALIDATE_BOOLEAN)` without FILTER_NULL_ON_FAILURE:
      true for the true spellings, false for everything else. */
  function FilterBool(s: string): (b: bool)
    ensures b ==> 1 <= |TrimBy(s, FilterBlanks)| <= 4
  {
    Lower(TrimBy(s, FilterBlanks)) in TrueWords
  }

  /** The filter ignores blanks around a word and the case of its letters:
      a padded word reads as true exactly when its lower case is one of the
      true spellings. */
  lemma FilterBoolPadded(pre: string, word: string, post: string)
    requires forall i :: 0 <= i < |pre| ==> pre[i] in FilterBlanks
    requires forall i :: 0 <= i < |post| ==> post[i] in FilterBlanks
    requires word != [] && word[0] !in FilterBlanks && word[|word| - 1] !in FilterBlanks
    ensures FilterBool(pre + word + post) <==> Lower(word) in TrueWords
  {
    TrimByPadded(pre, word, post, FilterBlanks);
  }

  /** A word whose first letter starts no true spelling is not one. */
  lemma NotTrueWord(w: string)
    requires w != [] && w[0] !in {'1', 't', 'o', 'y'}
    ensures w !in TrueWords
  {
    assert forall t :: t in TrueWords ==> t != [] && t[0] in {'1', 't', 'o', 'y'};
  }
  /** An upper-case `yes` with blanks around it reads as true. */
  lemma FilterBoolReadsYes()
    ensures FilterBool(" YES\n")
  {
    FilterBoolPadded(" ", "YES", "\n");
    assert " " + "YES" + "\n" == " YES\n";
    var y := Lower("YES");
    assert y[0] == 'y' && y[1] == 'e' && y[2] == 's';
    assert y == "yes";
  }

  /** A mixed-case `on` reads as true. */
  lemma FilterBoolReadsOn()
    ensures FilterBool("On")
  {
    FilterBoolPadded("", "On", "");
    assert "" + "On" + "" == "On";
    var o := Lower("On");
    assert o[0] == 'o' && o[1] == 'n';
    assert o == "on";
  }

  /** `0` reads as false. */
  lemma FilterBoolRejectsZero()
    ensures !FilterBool("0")
  {
    FilterBoolPadded("", "0", "");
    assert "" + "0" + "" == "0";
    assert Lower("0")[0] == '0';
    NotTrueWord(Lower("0"));
  }

  /** `false` with blanks around it reads as false. */
  lemma FilterBoolRejectsFalse()
    ensures !FilterBool(" false ")
  {
    FilterBoolPadded(" ", "false", " ");
    assert " " + "false" + " " == " false ";
    assert Lower("false")[0] == 'f';
    NotTrueWord(Lower("false"));
  }



}
