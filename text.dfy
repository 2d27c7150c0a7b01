/** The string operations Python's `str` gives the pipeline: substring search, `split`,
    `replace`, `join`, code-point ordering of strings, and the decimal text that
    `pandas.to_numeric` turns into a number. */
module Text {
  import opened Common
  import Sorting

  /** `pat` occurs in `s` starting at index `i`. */
  predicate OccursAt(s: string, pat: string, i: int) {
    0 <= i && i + |pat| <= |s| && s[i..i + |pat|] == pat
  }

  /** The last occurrence of `pat` starting before index `k`. */
  function LastIndexBelow(s: string, pat: string, k: nat): (r: Option<nat>)
    ensures r.Some? ==> r.value < k && OccursAt(s, pat, r.value)
    ensures r.Some? ==> forall j :: r.value < j < k ==> !OccursAt(s, pat, j)
    ensures r.None? ==> forall j :: 0 <= j < k ==> !OccursAt(s, pat, j)
    decreases k
  {
    if k == 0 then None
    else if OccursAt(s, pat, k - 1) then Some(k - 1)
    else LastIndexBelow(s, pat, k - 1)
  }

  /** The index of the last occurrence of `pat` in `s`, if any (`str.rfind`). */
  function LastIndexOf(s: string, pat: string): (r: Option<nat>)
    ensures r.Some? ==> OccursAt(s, pat, r.value) && forall j :: r.value < j ==> !OccursAt(s, pat, j)
    ensures r.None? ==> forall j :: !OccursAt(s, pat, j)
  {
    LastIndexBelow(s, pat, |s| + 1)
  }

  /** The first occurrence of `pat` starting at or after index `start` (`str.find(pat, start)`). */
  function FirstIndexFrom(s: string, pat: string, start: nat): (r: Option<nat>)
    ensures r.Some? ==> start <= r.value && OccursAt(s, pat, r.value)
    ensures r.Some? ==> forall j :: start <= j < r.value ==> !OccursAt(s, pat, j)
    ensures r.None? ==> forall j :: start <= j ==> !OccursAt(s, pat, j)
    decreases |s| + 1 - start
  {
    if start > |s| then None
    else if OccursAt(s, pat, start) then Some(start)
    else FirstIndexFrom(s, pat, start + 1)
  }

  /** Python's `pat in s`. */
  function Contains(s: string, pat: string): (b: bool)
    ensures b <==> exists i :: OccursAt(s, pat, i)
  {
    LastIndexOf(s, pat).Some?
  }

  /** Python's `s.split(sep)[0]`: the text before the first separator, or all of `s`. */
  function SplitFirst(s: string, sep: string): (r: string)
  {
    match FirstIndexFrom(s, sep, 0)
    case Some(i) => s[..i]
    case None => s
  }

  /** The last piece of Python's `s.split(sep)` for the part of `s` from `start` on: the scan
      finds separators left to right, each search resuming after the previous separator. */
  function SplitTail(s: string, sep: string, start: nat): (r: string)
    requires |sep| > 0 && start <= |s|
    decreases |s| - start
  {
    match FirstIndexFrom(s, sep, start)
    case Some(i) => SplitTail(s, sep, i + |sep|)
    case None => s[start..]
  }

  /** Python's `s.split(sep)[-1]`. */
  function SplitLast(s: string, sep: string): (r: string)
    requires |sep| > 0
  {
    SplitTail(s, sep, 0)
  }

  /** No proper prefix of `sep` is also a suffix of it, so two occurrences cannot overlap. */
  predicate BorderFree(sep: string) {
    forall d :: 0 < d < |sep| ==> sep[d..] != sep[..|sep| - d]
  }

  /** A separator whose first character does not occur again in it is border-free: any
      shifted copy starts with a character that differs from that first one. */
  lemma FirstCharUniqueBorderFree(sep: string)
    requires |sep| > 0
    requires forall k :: 0 < k < |sep| ==> sep[k] != sep[0]
    ensures BorderFree(sep)
  {
    forall d | 0 < d < |sep| ensures sep[d..] != sep[..|sep| - d] {
      ShiftedCopyDiffers(sep, d);
    }
  }

  lemma ShiftedCopyDiffers(sep: string, d: nat)
    requires 0 < d < |sep| && sep[d] != sep[0]
    ensures sep[d..] != sep[..|sep| - d]
  {
    assert sep[d..][0] == sep[d];
    assert sep[..|sep| - d][0] == sep[0];
  }

  /** Two overlapping occurrences of `sep` make it have a border. */
  lemma OverlapGivesBorder(s: string, sep: string, i: nat, j: nat)
    requires OccursAt(s, sep, i) && OccursAt(s, sep, j) && i < j < i + |sep|
    ensures sep[j - i..] == sep[..|sep| - (j - i)]
  {
    var d := j - i;
    forall k | 0 <= k < |sep| - d
      ensures sep[d..][k] == sep[..|sep| - d][k]
    {
      assert sep[d + k] == s[i..i + |sep|][d + k] == s[i + d + k];
      assert sep[k] == s[j..j + |sep|][k] == s[j + k];
    }
  }

  /** The greedy scan from `start` ends right after the last occurrence `last`, provided
      that `start` does not lie inside an occurrence that overlaps it. */
  lemma {:induction false} SplitTailAfterLast(s: string, sep: string, start: nat, last: nat)
    requires |sep| > 0 && BorderFree(sep) && start <= last
    requires OccursAt(s, sep, last) && forall j :: last < j ==> !OccursAt(s, sep, j)
    ensures SplitTail(s, sep, start) == s[last + |sep|..]
    decreases |s| - start
  {
    var i := FirstIndexFrom(s, sep, start).value;
    if i < last {
      if last < i + |sep| {
        OverlapGivesBorder(s, sep, i, last);
        assert false;
      }
      SplitTailAfterLast(s, sep, i + |sep|, last);
    } else {
      assert i == last;
      assert FirstIndexFrom(s, sep, last + |sep|).None?;
    }
  }

  /** For a separator whose occurrences cannot overlap, `s.split(sep)[-1]` is the text after
      the last occurrence of `sep`, or all of `s` when there is none. */
  lemma SplitLastIsTextAfterLastOccurrence(s: string, sep: string)
    requires |sep| > 0 && BorderFree(sep)
    ensures LastIndexOf(s, sep).Some? ==> SplitLast(s, sep) == s[LastIndexOf(s, sep).value + |sep|..]
    ensures LastIndexOf(s, sep).None? ==> SplitLast(s, sep) == s
  {
    match LastIndexOf(s, sep)
    case Some(last) => SplitTailAfterLast(s, sep, 0, last);
    case None => assert FirstIndexFrom(s, sep, 0).None?;
  }

  /** Python's `s.replace(pat, "")`: occurrences are removed left to right without overlap. */
  function RemoveAll(s: string, pat: string): (r: string)
    requires |pat| > 0
    ensures |r| <= |s|
  {
    if |s| < |pat| then s
    else if s[..|pat|] == pat then RemoveAll(s[|pat|..], pat)
    else [s[0]] + RemoveAll(s[1..], pat)
  }

  /** Removing every occurrence of a border-free `pat` from `c + pat`, when `c` itself does
      not contain `pat`, gives back `c`: the appended copy is the only one the scan meets. */
  lemma {:induction false} RemoveAllOfSuffix(c: string, pat: string)
    requires |pat| > 0 && BorderFree(pat) && !Contains(c, pat)
    ensures RemoveAll(c + pat, pat) == c
  {
    var s := c + pat;
    if c == [] {
      assert s == pat && s[|pat|..] == [];
    } else {
      if |c| >= |pat| {
        assert !OccursAt(c, pat, 0);
        assert c[..|pat|] == s[..|pat|];
      } else if s[..|pat|] == pat {
        assert OccursAt(s, pat, |c|) by { assert s[|c|..] == pat; }
        OverlapGivesBorder(s, pat, 0, |c|);
      }
      assert s[..|pat|] != pat;
      assert s[1..] == c[1..] + pat;
      forall i ensures !OccursAt(c[1..], pat, i) {
        if OccursAt(c[1..], pat, i) {
          assert c[1..][i..i + |pat|] == c[i + 1..i + 1 + |pat|];
          assert OccursAt(c, pat, i + 1);
        }
      }
      RemoveAllOfSuffix(c[1..], pat);
      assert c == [c[0]] + c[1..];
    }
  }

  /** Python's `sep.join(xs)`. */
  function Join(xs: seq<string>, sep: string): string {
    if xs == [] then ""
    else if |xs| == 1 then xs[0]
    else xs[0] + sep + Join(xs[1..], sep)
  }

  // ----- Python's repr of a string -----

  /** The quote `repr` puts around a string: a double quote when the text has a single
      quote and no double quote, a single quote otherwise. */
  function QuoteFor(s: string): (q: char)
    ensures q == '\'' || q == '"'
    ensures q == '"' <==> '\'' in s && '"' !in s
  {
    if '\'' in s && '"' !in s then '"' else '\''
  }

  /** A character below the space, or the delete character. */
  predicate IsControl(c: char) {
    c < ' ' || c as int == 127
  }

  function HexDigit(n: nat): (c: char)
    requires n < 16
  {
    if n < 10 then ('0' as int + n) as char else ('a' as int + n - 10) as char
  }

  predicate IsHexDigit(c: char) {
    '0' <= c <= '9' || 'a' <= c <= 'f'
  }

  function HexValue(c: char): (n: nat)
    requires IsHexDigit(c)
    ensures n < 16
  {
    if c <= '9' then c as int - '0' as int else c as int - 'a' as int + 10
  }

  /** How `repr` writes one character inside quotes `q`: the quote and the backslash are
      escaped, tab, line feed and carriage return get their letter escapes and other
      control characters a two-digit hexadecimal escape. */
  function EscapeChar(c: char, q: char): string {
    if c == q || c == '\\' then ['\\', c]
    else if c == '\t' then "\\t"
    else if c == '\n' then "\\n"
    else if c == '\r' then "\\r"
    else if IsControl(c) then ['\\', 'x', HexDigit(c as int / 16), HexDigit(c as int % 16)]
    else [c]
  }

  function Escape(s: string, q: char): string {
    if s == [] then "" else EscapeChar(s[0], q) + Escape(s[1..], q)
  }

  /** Python's `repr` of a string. */
  function Repr(s: string): (r: string)
    ensures |r| >= 2 && r[0] == r[|r| - 1] == QuoteFor(s)
  {
    var q := QuoteFor(s);
    [q] + Escape(s, q) + [q]
  }

  /** Reads escaped text back: a backslash and a letter stand for the tab, line feed or
      carriage return, a backslash, `x` and two hexadecimal digits for that character, and
      a backslash before any other character for that character. */
  function Unescape(t: string): string
    decreases |t|
  {
    if t == [] then ""
    else if t[0] == '\\' && |t| >= 2 then
      if t[1] == 't' then "\t" + Unescape(t[2..])
      else if t[1] == 'n' then "\n" + Unescape(t[2..])
      else if t[1] == 'r' then "\r" + Unescape(t[2..])
      else if t[1] == 'x' && |t| >= 4 && IsHexDigit(t[2]) && IsHexDigit(t[3]) then
        [(HexValue(t[2]) * 16 + HexValue(t[3])) as char] + Unescape(t[4..])
      else [t[1]] + Unescape(t[2..])
    else [t[0]] + Unescape(t[1..])
  }

  lemma HexRoundTrip(n: nat)
    requires n < 16
    ensures IsHexDigit(HexDigit(n)) && HexValue(HexDigit(n)) == n
  {
  }

  lemma UnescapeChar(c: char, q: char, rest: string)
    requires q == '\'' || q == '"'
    ensures Unescape(EscapeChar(c, q) + rest) == [c] + Unescape(rest)
  {
    var t := EscapeChar(c, q) + rest;
    if c == q || c == '\\' {
      assert t[0] == '\\' && t[1] == c && t[2..] == rest;
    } else if c == '\t' || c == '\n' || c == '\r' {
      assert t[0] == '\\' && t[2..] == rest;
    } else if IsControl(c) {
      var hi, lo := c as int / 16, c as int % 16;
      HexRoundTrip(hi);
      HexRoundTrip(lo);
      assert t[0] == '\\' && t[1] == 'x' && t[2] == HexDigit(hi) && t[3] == HexDigit(lo) && t[4..] == rest;
      assert (hi * 16 + lo) as char == c;
    } else {
      assert t[0] == c && t[1..] == rest;
    }
  }

  /** Escaping loses nothing: the escaped text reads back as the original. */
  lemma {:induction false} UnescapeEscape(s: string, q: char)
    requires q == '\'' || q == '"'
    ensures Unescape(Escape(s, q)) == s
  {
    if s != [] {
      UnescapeChar(s[0], q, Escape(s[1..], q));
      UnescapeEscape(s[1..], q);
      assert s == [s[0]] + s[1..];
    }
  }

  /** The text between the quotes of `repr(s)` reads back as `s`. */
  lemma ReprRoundTrip(s: string)
    ensures var r := Repr(s); Unescape(r[1..|r| - 1]) == s
  {
    var q := QuoteFor(s);
    var r := Repr(s);
    assert r[1..|r| - 1] == Escape(s, q);
    UnescapeEscape(s, q);
  }

  /** Text without quotes, backslashes or control characters is shown as it is, between
      single quotes. */
  lemma {:induction false} EscapePlain(s: string, q: char)
    requires forall i :: 0 <= i < |s| ==> s[i] != q && s[i] != '\\' && !IsControl(s[i])
    ensures Escape(s, q) == s
  {
    if s != [] {
      EscapePlain(s[1..], q);
      assert s == [s[0]] + s[1..];
    }
  }

  lemma ReprOfPlain(s: string)
    requires forall i :: 0 <= i < |s| ==> s[i] != '\'' && s[i] != '\\' && !IsControl(s[i])
    ensures Repr(s) == "'" + s + "'"
  {
    EscapePlain(s, '\'');
  }

  /** Text with a single quote, but no double quote, backslash or control character, is
      shown unchanged between double quotes. */
  lemma ReprOfSingleQuoted(s: string)
    requires '\'' in s
    requires forall i :: 0 <= i < |s| ==> s[i] != '"' && s[i] != '\\' && !IsControl(s[i])
    ensures Repr(s) == "\"" + s + "\""
  {
    assert '"' !in s;
    EscapePlain(s, '"');
  }

  function ReprAll(xs: seq<string>): (qs: seq<string>)
    ensures |qs| == |xs|
    ensures forall i :: 0 <= i < |xs| ==> qs[i] == Repr(xs[i])
  {
    if xs == [] then [] else [Repr(xs[0])] + ReprAll(xs[1..])
  }

  /** Python's `repr` of a list of strings. */
  function ListRepr(xs: seq<string>): string {
    "[" + Join(ReprAll(xs), ", ") + "]"
  }

  /** Python's ordering of strings: lexicographic on code points. */
  predicate StrLe(a: string, b: string) {
    if a == [] then true
    else if b == [] then false
    else if a[0] != b[0] then a[0] < b[0]
    else StrLe(a[1..], b[1..])
  }

  lemma StrLeTotal(a: string, b: string)
    ensures StrLe(a, b) || StrLe(b, a)
  {
  }

  lemma StrLeAntisymmetric(a: string, b: string)
    ensures StrLe(a, b) && StrLe(b, a) ==> a == b
  {
    if a != [] && b != [] && a[0] == b[0] {
      StrLeAntisymmetric(a[1..], b[1..]);
      assert a == [a[0]] + a[1..] && b == [b[0]] + b[1..];
    }
  }

  lemma StrLeTransitive(a: string, b: string, c: string)
    ensures StrLe(a, b) && StrLe(b, c) ==> StrLe(a, c)
  {
    if a != [] && b != [] && c != [] {
      StrLeTransitive(a[1..], b[1..], c[1..]);
    }
  }

  /** `StrLe` is a total order on strings. */
  lemma StrLeIsTotalOrder()
    ensures forall a, b :: StrLe(a, b) || StrLe(b, a)
    ensures forall a, b :: StrLe(a, b) && StrLe(b, a) ==> a == b
    ensures forall a, b, c :: StrLe(a, b) && StrLe(b, c) ==> StrLe(a, c)
  {
    forall a, b ensures StrLe(a, b) || StrLe(b, a) { StrLeTotal(a, b); }
    forall a, b ensures StrLe(a, b) && StrLe(b, a) ==> a == b { StrLeAntisymmetric(a, b); }
    forall a, b, c ensures StrLe(a, b) && StrLe(b, c) ==> StrLe(a, c) { StrLeTransitive(a, b, c); }
  }

  /** Python's `sorted` on strings: a permutation in ascending code-point order. */
  function SortStrings(xs: seq<string>): (r: seq<string>)
    ensures multiset(r) == multiset(xs) && |r| == |xs|
    ensures forall i, j :: 0 <= i < j < |r| ==> StrLe(r[i], r[j])
  {
    var le := (a: string, b: string) => StrLe(a, b);
    StrLeIsTotalOrder();
    assert Sorting.TotalPreorder(le);
    Sorting.SortBySorted(xs, le);
    Sorting.SortBy(xs, le)
  }

  /** Python's `sorted(set(xs))`: the distinct strings of `xs`, ascending. */
  function SortedSet(xs: seq<string>): (r: seq<string>)
    ensures forall x :: x in r <==> x in xs
    ensures Sorting.NoDuplicates(r)
    ensures forall i, j :: 0 <= i < j < |r| ==> StrLe(r[i], r[j])
  {
    var d := Sorting.Distinct(xs);
    var r := SortStrings(d);
    assert forall x :: x in r <==> x in multiset(d);
    Sorting.PermutationKeepsNoDuplicates(d, r);
    r
  }

  // ----- decimal text, as far as this model reads it -----

  /** `SortedSet` depends only on which strings occur, not on their order or repetition. */
  lemma SortedSetByMembers(xs: seq<string>, ys: seq<string>)
    requires forall x :: x in xs <==> x in ys
    ensures SortedSet(xs) == SortedSet(ys)
  {
    var a, b := SortedSet(xs), SortedSet(ys);
    StrLeIsTotalOrder();
    Sorting.SortedUnique(a, b, (u: string, v: string) => StrLe(u, v));
  }

  predicate IsDigit(c: char) {
    '0' <= c <= '9'
  }

  predicate AllDigits(s: string) {
    forall i :: 0 <= i < |s| ==> IsDigit(s[i])
  }

  /** The value of a string of decimal digits (0 for the empty string). */
  function DigitsValue(ds: string): nat
    requires AllDigits(ds)
  {
    if ds == [] then 0
    else DigitsValue(ds[..|ds| - 1]) * 10 + (ds[|ds| - 1] as int - '0' as int)
  }

  function Pow10(n: nat): (p: nat)
    ensures p >= 1
  {
    if n == 0 then 1 else 10 * Pow10(n - 1)
  }

  /** The decimal digits of `n`, most significant first, without leading zeros. */
  function NatToString(n: nat): (s: string)
    ensures |s| > 0 && AllDigits(s)
  {
    var d := ['0' + (n % 10) as char];
    if n < 10 then d else NatToString(n / 10) + d
  }

  /** Reads `digits[.digits]` or `.digits`; any other text is not a number. */
  function ParseUnsigned(body: string): (r: Option<real>)
  {
    var whole := SplitFirst(body, ".");
    var fraction := if |whole| < |body| then body[|whole| + 1..] else "";
    if !AllDigits(whole) || !AllDigits(fraction) || |whole| + |fraction| == 0 then None
    else Some(DigitsValue(whole) as real + DigitsValue(fraction) as real / Pow10(|fraction|) as real)
  }

  /** Reads an optionally signed decimal number; any other text is not a number. */
  function ParseNumber(s: string): (r: Option<real>)
  {
    if |s| > 0 && s[0] == '-' then
      match ParseUnsigned(s[1..])
      case Some(x) => Some(-x)
      case None => None
    else if |s| > 0 && s[0] == '+' then ParseUnsigned(s[1..])
    else ParseUnsigned(s)
  }

  lemma {:induction false} NatToStringValue(n: nat)
    ensures DigitsValue(NatToString(n)) == n
  {
    var s := NatToString(n);
    if n >= 10 {
      NatToStringValue(n / 10);
      assert s[..|s| - 1] == NatToString(n / 10);
    }
  }

  /** A string of digits has no decimal point, so it is read as a whole number. */
  lemma DigitsParse(s: string)
    requires |s| > 0 && AllDigits(s)
    ensures ParseUnsigned(s) == Some(DigitsValue(s) as real)
  {
    NoPointInDigits(s);
    WholeParse(s, DigitsValue(s));
  }

  lemma WholeParse(s: string, v: nat)
    requires |s| > 0 && AllDigits(s) && SplitFirst(s, ".") == s && v == DigitsValue(s)
    ensures ParseUnsigned(s) == Some(v as real)
  {
    assert AllDigits("");
  }

  lemma NoPointInDigits(s: string)
    requires AllDigits(s)
    ensures SplitFirst(s, ".") == s
  {
    forall j | 0 <= j ensures !OccursAt(s, ".", j) {
      if j < |s| { assert IsDigit(s[j]); }
    }
    assert FirstIndexFrom(s, ".", 0).None?;
  }

  /** Reading back the decimal digits of a natural number, with or without a minus sign,
      gives that number. */
  lemma ParseNumberOfNat(n: nat)
    ensures ParseNumber(NatToString(n)) == Some(n as real)
    ensures ParseNumber("-" + NatToString(n)) == Some(-(n as real))
  {
    var s := NatToString(n);
    NatToStringValue(n);
    DigitsParse(s);
    assert IsDigit(s[0]);
    var t := "-" + s;
    assert t[1..] == s;
  }
}
