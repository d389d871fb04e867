/** String and sequence helpers shared by the extractors: Python's notion of
    whitespace, ASCII case mapping, strip, join, split on one character,
    first-occurrence deduplication, Python slicing, decimal numerals and the
    sentence split of programs 10 and 11. */
module Text {

  /** The characters Python's str.isspace() accepts: what str.strip() removes
      and what the regex class `\s` matches. */
  predicate IsSpace(c: char) {
    c == ' ' || ('\t' <= c <= '\r') || ('\U{1c}' <= c <= '\U{1f}')
    || c == '\U{85}' || c == '\U{a0}' || c == '\U{1680}'
    || ('\U{2000}' <= c <= '\U{200a}') || c == '\U{2028}' || c == '\U{2029}'
    || c == '\U{202f}' || c == '\U{205f}' || c == '\U{3000}'
  }

  /** An ASCII decimal digit (the regex class `\d`, restricted to ASCII). */
  predicate IsDigit(c: char) {
    '0' <= c <= '9'
  }

  /** The regex class `\w`, restricted to ASCII: letters, digits and underscore. */
  predicate IsWordChar(c: char) {
    IsDigit(c) || ('a' <= c <= 'z') || ('A' <= c <= 'Z') || c == '_'
  }

  predicate AllSpace(s: string) {
    forall i :: 0 <= i < |s| ==> IsSpace(s[i])
  }

  predicate AllDigits(s: string) {
    forall i :: 0 <= i < |s| ==> IsDigit(s[i])
  }

  function LowerChar(c: char): (d: char)
    ensures 'A' <= c <= 'Z' ==> 'a' <= d <= 'z' && d as int == c as int + 32
    ensures !('A' <= c <= 'Z') ==> d == c
  {
    if 'A' <= c <= 'Z' then (c as int + 32) as char else c
  }

  function UpperChar(c: char): (d: char)
    ensures 'a' <= c <= 'z' ==> 'A' <= d <= 'Z' && d as int == c as int - 32
    ensures !('a' <= c <= 'z') ==> d == c
  {
    if 'a' <= c <= 'z' then (c as int - 32) as char else c
  }

  /** str.lower() on the ASCII letters; every other character is kept. */
  function Lower(s: string): (r: string)
    ensures |r| == |s|
  {
    if s == [] then [] else [LowerChar(s[0])] + Lower(s[1..])
  }

  lemma {:induction false} LowerAt(s: string, i: nat)
    requires i < |s|
    ensures Lower(s)[i] == LowerChar(s[i])
  {
    if i > 0 {
      LowerAt(s[1..], i - 1);
    }
  }

  /** Lower-casing character by character: the way to compute `Lower` of a
      literal without unfolding it. */
  lemma LowerEq(s: string, t: string)
    requires |s| == |t| && forall i :: 0 <= i < |s| ==> LowerChar(s[i]) == t[i]
    ensures Lower(s) == t
  {
    forall i | 0 <= i < |s| ensures Lower(s)[i] == t[i] {
      LowerAt(s, i);
    }
  }

  /** str.upper() on the ASCII letters; every other character is kept. */
  function Upper(s: string): (r: string)
    ensures |r| == |s|
  {
    if s == [] then [] else [UpperChar(s[0])] + Upper(s[1..])
  }

  /** The Python expression `needle in hay` on strings: `needle` starts at
      some position of `hay`. */
  predicate Contains(hay: string, needle: string)
    decreases |hay|
  {
    needle <= hay || (hay != [] && Contains(hay[1..], needle))
  }

  predicate StartsWith(s: string, prefix: string) {
    prefix <= s
  }

  predicate EndsWith(s: string, suffix: string) {
    |suffix| <= |s| && s[|s| - |suffix|..] == suffix
  }

  /** Index of the first character at or after `i` that is not whitespace. */
  function SkipSpaces(s: string, i: nat): (j: nat)
    requires i <= |s|
    ensures i <= j <= |s|
    ensures forall k :: i <= k < j ==> IsSpace(s[k])
    ensures j == |s| || !IsSpace(s[j])
    decreases |s| - i
  {
    if i == |s| || !IsSpace(s[i]) then i else SkipSpaces(s, i + 1)
  }

  /** Index just past the maximal run of digits starting at `i`. */
  function SkipDigits(s: string, i: nat): (j: nat)
    requires i <= |s|
    ensures i <= j <= |s|
    ensures forall k :: i <= k < j ==> IsDigit(s[k])
    ensures j == |s| || !IsDigit(s[j])
    decreases |s| - i
  {
    if i == |s| || !IsDigit(s[i]) then i else SkipDigits(s, i + 1)
  }

  /** A run of digits from `i` to `e` that stops at `e` is what
      `SkipDigits` finds. */
  lemma {:induction false} SkipDigitsEnd(s: string, i: nat, e: nat)
    requires i <= e <= |s|
    requires forall k :: i <= k < e ==> IsDigit(s[k])
    requires e < |s| ==> !IsDigit(s[e])
    ensures SkipDigits(s, i) == e
    decreases e - i
  {
    if i < e {
      SkipDigitsEnd(s, i + 1, e);
    }
  }

  /** The same for whitespace and `SkipSpaces`. */
  lemma {:induction false} SkipSpacesEnd(s: string, i: nat, e: nat)
    requires i <= e <= |s|
    requires forall k :: i <= k < e ==> IsSpace(s[k])
    requires e < |s| ==> !IsSpace(s[e])
    ensures SkipSpaces(s, i) == e
    decreases e - i
  {
    if i < e {
      SkipSpacesEnd(s, i + 1, e);
    }
  }

  /** Start of the maximal run of whitespace that ends at `j`. */
  function BackSpaces(s: string, j: nat): (i: nat)
    requires j <= |s|
    ensures i <= j
    ensures forall k :: i <= k < j ==> IsSpace(s[k])
    ensures i == 0 || !IsSpace(s[i - 1])
  {
    if j == 0 || !IsSpace(s[j - 1]) then j else BackSpaces(s, j - 1)
  }

  /** str.lstrip(): remove leading whitespace. */
  function TrimStart(s: string): (r: string)
    ensures |r| <= |s|
  {
    if s != [] && IsSpace(s[0]) then TrimStart(s[1..]) else s
  }

  /** str.rstrip(): remove trailing whitespace. */
  function TrimEnd(s: string): (r: string)
    ensures |r| <= |s|
  {
    if s != [] && IsSpace(s[|s| - 1]) then TrimEnd(s[..|s| - 1]) else s
  }

  /** str.strip(): remove leading and trailing whitespace. */
  function Strip(s: string): string {
    TrimEnd(TrimStart(s))
  }

  /** Text that neither starts nor ends with whitespace is its own strip. */
  lemma StripUnchanged(s: string)
    requires s != [] ==> !IsSpace(s[0]) && !IsSpace(s[|s| - 1])
    ensures Strip(s) == s
  {
    assert TrimStart(s) == s;
  }

  lemma {:induction false} TrimStartFacts(s: string)
    ensures var a := |s| - |TrimStart(s)|;
      && TrimStart(s) == s[a..] && AllSpace(s[..a])
      && (TrimStart(s) == [] || !IsSpace(TrimStart(s)[0]))
  {
    if s != [] && IsSpace(s[0]) {
      TrimStartFacts(s[1..]);
      var a := |s| - |TrimStart(s)|;
      assert s[1..][..a - 1] == s[1..a];
    }
  }

  lemma {:induction false} TrimEndFacts(s: string)
    ensures var b := |TrimEnd(s)|;
      && TrimEnd(s) == s[..b] && AllSpace(s[b..])
      && (TrimEnd(s) == [] || !IsSpace(TrimEnd(s)[b - 1]))
  {
    if s != [] && IsSpace(s[|s| - 1]) {
      var init := s[..|s| - 1];
      TrimEndFacts(init);
      var b := |TrimEnd(s)|;
      assert TrimEnd(s) == TrimEnd(init);
      assert init[..b] == s[..b];
      assert s[b..] == init[b..] + [s[|s| - 1]];
    }
  }

  /** The stripped text is what lies between the leading and the trailing
      whitespace, and starts and ends with a character that is not. */
  lemma StripIsInner(s: string)
    ensures var a := |s| - |TrimStart(s)|; var r := Strip(s);
      && a + |r| <= |s| && s[a..a + |r|] == r
      && AllSpace(s[..a]) && AllSpace(s[a + |r|..])
      && (r == [] || (!IsSpace(r[0]) && !IsSpace(r[|r| - 1])))
  {
    TrimStartFacts(s);
    var t := TrimStart(s);
    TrimEndFacts(t);
    var a := |s| - |t|;
    var r := Strip(s);
    assert s[a + |r|..] == t[|r|..];
  }

  /** Stripping leaves nothing exactly when the text is all whitespace. */
  lemma StripEmpty(s: string)
    ensures Strip(s) == [] <==> AllSpace(s)
  {
    StripIsInner(s);
    var a := |s| - |TrimStart(s)|;
    if Strip(s) == [] {
      assert s == s[..a] + s[a..];
    } else {
      assert !IsSpace(s[a]);
    }
  }

  /** `sep.join(parts)`. */
  function Join(parts: seq<string>, sep: string): (r: string)
    ensures parts == [] ==> r == []
    ensures |parts| == 1 ==> r == parts[0]
  {
    if parts == [] then []
    else if |parts| == 1 then parts[0]
    else parts[0] + sep + Join(parts[1..], sep)
  }

  lemma {:induction false} JoinEmpty(parts: seq<string>, sep: string)
    ensures Join(parts, sep) == [] <==> (parts == [] || (|parts| == 1 && parts[0] == []) || (|parts| > 1 && sep == [] && forall i :: 0 <= i < |parts| ==> parts[i] == []))
  {
    if |parts| > 1 {
      JoinEmpty(parts[1..], sep);
      assert forall i :: 1 <= i < |parts| ==> parts[i] == parts[1..][i - 1];
    }
  }

  /** Joining two non-empty lists puts one separator between their joins. */
  lemma {:induction false} JoinAppend(a: seq<string>, b: seq<string>, sep: string)
    requires a != [] && b != []
    ensures Join(a + b, sep) == Join(a, sep) + sep + Join(b, sep)
  {
    if |a| > 1 {
      assert (a + b)[1..] == a[1..] + b;
      JoinAppend(a[1..], b, sep);
      var x, y, z := Join(a[1..], sep), Join(b, sep), a[0] + sep;
      calc {
        Join(a + b, sep);
        z + Join(a[1..] + b, sep);
        z + (x + sep + y);
        (z + x) + sep + y;
      }
    } else {
      assert (a + b)[1..] == b;
    }
  }

  /** Joining one more element at the end. */
  lemma JoinSnoc(a: seq<string>, x: string, sep: string)
    requires a != []
    ensures Join(a + [x], sep) == Join(a, sep) + sep + x
  {
    JoinAppend(a, [x], sep);
  }

  /** `s.split(c)` for a one-character separator: the pieces between the
      occurrences of `c`, never an empty list. */
  function SplitOn(s: string, c: char): (r: seq<string>)
    ensures |r| >= 1
    ensures forall i :: 0 <= i < |r| ==> c !in r[i]
    ensures Join(r, [c]) == s
    decreases |s|
  {
    if c !in s then [s]
    else
      var i := IndexOf(s, c);
      assert s == s[..i] + [c] + s[i + 1..];
      [s[..i]] + SplitOn(s[i + 1..], c)
  }

  function IndexOf<T(==)>(s: seq<T>, x: T): (i: nat)
    requires x in s
    ensures i < |s| && s[i] == x && x !in s[..i]
  {
    if s[0] == x then 0 else 1 + IndexOf(s[1..], x)
  }

  predicate Distinct<T(==)>(s: seq<T>) {
    forall i, j :: 0 <= i < j < |s| ==> s[i] != s[j]
  }

  /** `list(dict.fromkeys(s))`: the elements of `s` in order of their first
      occurrence, each once. */
  function Dedup<T(==,!new)>(s: seq<T>): (r: seq<T>)
    ensures Distinct(r)
    ensures forall x :: x in r <==> x in s
    ensures |r| <= |s|
  {
    if s == [] then []
    else
      var d := Dedup(s[..|s| - 1]);
      var x := s[|s| - 1];
      assert forall y :: y in s <==> y in s[..|s| - 1] || y == x by {
        assert s == s[..|s| - 1] + [x];
      }
      if x in d then d else d + [x]
  }

  /** A sequence without repeats has as many elements as its set. */
  lemma {:induction false} DistinctCard<T>(s: seq<T>)
    requires Distinct(s)
    ensures |set x | x in s| == |s|
  {
    if s != [] {
      var p := s[..|s| - 1];
      var x := s[|s| - 1];
      assert Distinct(p);
      DistinctCard(p);
      assert s == p + [x];
      assert (set y | y in s) == (set y | y in p) + {x};
      assert x !in p;
    }
  }

  /** Deduplication keeps first occurrences: an element comes before another
      in the result exactly when its first occurrence in the input does. */
  lemma {:induction false} DedupOrder<T(!new)>(s: seq<T>, a: T, b: T)
    requires a in s && b in s
    ensures a in Dedup(s) && b in Dedup(s)
    ensures IndexOf(Dedup(s), a) < IndexOf(Dedup(s), b) <==> IndexOf(s, a) < IndexOf(s, b)
    decreases |s|
  {
    var p := s[..|s| - 1];
    var x := s[|s| - 1];
    assert s == p + [x];
    var d := Dedup(p);
    if a in p && b in p {
      DedupOrder(p, a, b);
      IndexOfPrefix(s, p, a);
      IndexOfPrefix(s, p, b);
      IndexOfPrefix(Dedup(s), d, a);
      IndexOfPrefix(Dedup(s), d, b);
    } else if a in p {
      assert b == x && b !in p;
      IndexOfPrefix(s, p, a);
      IndexOfPrefix(Dedup(s), d, a);
      assert IndexOf(s, b) == |p| by { IndexOfLast(s, b); }
      assert b !in d;
      assert IndexOf(Dedup(s), b) == |d| by { IndexOfLast(Dedup(s), b); }
    } else if b in p {
      assert a == x && a !in p;
      IndexOfPrefix(s, p, b);
      IndexOfPrefix(Dedup(s), d, b);
      assert IndexOf(s, a) == |p| by { IndexOfLast(s, a); }
      assert a !in d;
      assert IndexOf(Dedup(s), a) == |d| by { IndexOfLast(Dedup(s), a); }
    } else {
      assert a == x && b == x;
    }
  }

  lemma IndexOfPrefix<T>(s: seq<T>, p: seq<T>, x: T)
    requires p <= s && x in p
    ensures x in s && IndexOf(s, x) == IndexOf(p, x)
  {
    var i := IndexOf(p, x);
    assert s[i] == x;
    assert x !in s[..i] by { assert s[..i] == p[..i]; }
    IndexOfUnique(s, x, i);
  }

  lemma IndexOfLast<T>(s: seq<T>, x: T)
    requires |s| > 0 && s[|s| - 1] == x && x !in s[..|s| - 1]
    ensures IndexOf(s, x) == |s| - 1
  {
    IndexOfUnique(s, x, |s| - 1);
  }

  lemma {:induction false} IndexOfUnique<T>(s: seq<T>, x: T, i: nat)
    requires i < |s| && s[i] == x && x !in s[..i]
    ensures IndexOf(s, x) == i
  {
    if i > 0 {
      assert s[..i][0] == s[0];
      assert s[1..][..i - 1] == s[..i][1..];
      IndexOfUnique(s[1..], x, i - 1);
    }
  }

  function Filter<T(!new)>(s: seq<T>, p: T -> bool): (r: seq<T>)
    ensures |r| <= |s|
    ensures forall x :: x in r <==> x in s && p(x)
  {
    if s == [] then []
    else (if p(s[0]) then [s[0]] else []) + Filter(s[1..], p)
  }

  /** Concatenation is associative (stated for the solver, which does not
      always find it on its own). */
  lemma AppendAssoc<T>(a: seq<T>, b: seq<T>, c: seq<T>)
    ensures a + b + c == a + (b + c)
  {
  }

  /** Filtering a sequence with a given first element. */
  lemma FilterCons<T(!new)>(x: T, s: seq<T>, p: T -> bool)
    ensures Filter([x] + s, p) == (if p(x) then [x] else []) + Filter(s, p)
  {
    assert ([x] + s)[1..] == s;
  }

  /** Filtering distributes over appending one element. */
  lemma {:induction false} FilterSnoc<T(!new)>(s: seq<T>, x: T, p: T -> bool)
    ensures Filter(s + [x], p) == Filter(s, p) + (if p(x) then [x] else [])
  {
    if s != [] {
      assert (s + [x])[1..] == s[1..] + [x];
      FilterSnoc(s[1..], x, p);
    }
  }

  /** Filtering one more element of a prefix. */
  lemma FilterPrefixStep<T(!new)>(s: seq<T>, k: nat, p: T -> bool)
    requires k < |s|
    ensures Filter(s[..k + 1], p) == Filter(s[..k], p) + (if p(s[k]) then [s[k]] else [])
  {
    assert s[..k + 1] == s[..k] + [s[k]];
    FilterSnoc(s[..k], s[k], p);
  }

  /** Filtering a non-empty sequence: all but its last element, then that
      one. */
  lemma FilterLast<T(!new)>(s: seq<T>, p: T -> bool)
    requires s != []
    ensures Filter(s, p) == Filter(s[..|s| - 1], p) + (if p(s[|s| - 1]) then [s[|s| - 1]] else [])
  {
    var init, last := s[..|s| - 1], s[|s| - 1];
    FilterSnoc(init, last, p);
    assert init + [last] == s;
  }

  /** Filtering then deduplicating a sequence grown by one element keeps that
      element exactly when it passes the filter and is new. */
  lemma DedupFilterSnoc<T(!new)>(s: seq<T>, x: T, p: T -> bool)
    ensures var d := Dedup(Filter(s, p));
      Dedup(Filter(s + [x], p)) == if p(x) && x !in d then d + [x] else d
  {
    FilterSnoc(s, x, p);
    var f := Filter(s + [x], p);
    var d := Dedup(Filter(s, p));
    if p(x) {
      assert f == Filter(s, p) + [x];
      assert f[..|f| - 1] == Filter(s, p) && f[|f| - 1] == x;
      assert Dedup(f) == if x in d then d else d + [x];
    } else {
      assert Filter(s, p) + [] == Filter(s, p);
      assert f == Filter(s, p);
    }
  }

  /** `a` is obtained from `b` by deleting elements. */
  predicate Subsequence<T(==)>(a: seq<T>, b: seq<T>)
    decreases |b|
  {
    a == [] || (b != [] && ((a[|a| - 1] == b[|b| - 1] && Subsequence(a[..|a| - 1], b[..|b| - 1]))
                            || Subsequence(a, b[..|b| - 1])))
  }

  /** `[x.strip() for x in s]`. */
  function StripAll(s: seq<string>): (r: seq<string>)
    ensures |r| == |s| && forall i :: 0 <= i < |s| ==> r[i] == Strip(s[i])
  {
    seq(|s|, i requires 0 <= i < |s| => Strip(s[i]))
  }

  /** Stripping a sequence is stripping all but its last element, then
      that one. */
  lemma StripAllLast(s: seq<string>)
    requires s != []
    ensures StripAll(s) == StripAll(s[..|s| - 1]) + [Strip(s[|s| - 1])]
  {
    var l := StripAll(s);
    var r := StripAll(s[..|s| - 1]) + [Strip(s[|s| - 1])];
    assert |l| == |r|;
    forall i | 0 <= i < |l| ensures l[i] == r[i] {
      if i < |s| - 1 {
        assert s[..|s| - 1][i] == s[i];
      }
    }
  }

  /** Python's `s[:n]`: a negative `n` drops that many elements from the end. */
  function PySlice<T>(s: seq<T>, n: int): (r: seq<T>)
    ensures r <= s
    ensures n >= 0 ==> |r| == if n < |s| then n else |s|
    ensures n < 0 ==> |r| == if |s| + n > 0 then |s| + n else 0
  {
    if n >= 0 then (if n < |s| then s[..n] else s)
    else (if |s| + n > 0 then s[..|s| + n] else [])
  }

  function DigitChar(d: nat): (c: char)
    requires d < 10
    ensures IsDigit(c) && c as int - '0' as int == d
  {
    ('0' as int + d) as char
  }

  /** `str(n)` for a natural number: its decimal numeral. */
  function NatToString(n: nat): (s: string)
    ensures |s| >= 1 && AllDigits(s)
    ensures |s| > 1 ==> s[0] != '0'
    decreases n
  {
    if n < 10 then [DigitChar(n)] else NatToString(n / 10) + [DigitChar(n % 10)]
  }

  /** `int(s)` for a non-empty string of ASCII digits. */
  function DigitsValue(s: string): (n: nat)
    requires AllDigits(s)
  {
    if s == [] then 0 else 10 * DigitsValue(s[..|s| - 1]) + (s[|s| - 1] as int - '0' as int)
  }

  /** Reading back the numeral of `n` gives `n`. */
  lemma {:induction false} DigitsValueOfNatToString(n: nat)
    ensures DigitsValue(NatToString(n)) == n
    decreases n
  {
    var s := NatToString(n);
    if n >= 10 {
      DigitsValueOfNatToString(n / 10);
      assert s[..|s| - 1] == NatToString(n / 10);
    }
  }

  /** Distinct numbers have distinct numerals. */
  lemma NatToStringInjective(m: nat, n: nat)
    requires NatToString(m) == NatToString(n)
    ensures m == n
  {
    DigitsValueOfNatToString(m);
    DigitsValueOfNatToString(n);
  }

  /** Two texts that agree around a numeral, and where the numeral is
      followed by a non-digit, hold the same numeral. */
  lemma NumeralsAgree(p: string, a: string, b: string, x: string, y: string)
    requires AllDigits(a) && AllDigits(b)
    requires |x| > 0 && |y| > 0 && !IsDigit(x[0]) && !IsDigit(y[0])
    requires p + a + x == p + b + y
    ensures a == b
  {
    var s := p + a + x;
    assert forall k :: |p| <= k < |p| + |a| ==> IsDigit(s[k]);
    assert s[|p| + |a|] == x[0];
    SkipDigitsEnd(s, |p|, |p| + |a|);
    var t := p + b + y;
    assert forall k :: |p| <= k < |p| + |b| ==> IsDigit(t[k]);
    assert t[|p| + |b|] == y[0];
    SkipDigitsEnd(t, |p|, |p| + |b|);
    assert a == s[|p|..|p| + |a|] == b;
  }

  // ---------------------------------------------------------------------
  // Sentences: `re.split(r'[.!?]+', text)`, stripped, empties dropped
  // ---------------------------------------------------------------------

  predicate IsStop(c: char) {
    c == '.' || c == '!' || c == '?'
  }

  predicate NoStop(s: string) {
    forall k :: 0 <= k < |s| ==> !IsStop(s[k])
  }

  /** The first sentence end at or after `i`, or `|s|`. */
  function NextStop(s: string, i: nat): (j: nat)
    requires i <= |s|
    ensures i <= j <= |s|
    ensures forall k :: i <= k < j ==> !IsStop(s[k])
    ensures j < |s| ==> IsStop(s[j])
    decreases |s| - i
  {
    if i == |s| || IsStop(s[i]) then i else NextStop(s, i + 1)
  }

  /** The end of the run of sentence ends that starts at `i`. */
  function SkipStops(s: string, i: nat): (j: nat)
    requires i <= |s|
    ensures i <= j <= |s|
    ensures j < |s| ==> !IsStop(s[j])
    decreases |s| - i
  {
    if i < |s| && IsStop(s[i]) then SkipStops(s, i + 1) else i
  }

  /** The pieces between runs of '.', '!' and '?'. */
  function RunSplit(s: string): (pieces: seq<string>)
    ensures |pieces| >= 1
    ensures forall k :: 0 <= k < |pieces| ==> NoStop(pieces[k])
    decreases |s|
  {
    var i := NextStop(s, 0);
    if i == |s| then [s]
    else [s[..i]] + RunSplit(s[SkipStops(s, i)..])
  }

  /** The pieces stripped, the blank ones dropped. */
  function Clean(pieces: seq<string>): (sentences: seq<string>)
    requires forall k :: 0 <= k < |pieces| ==> NoStop(pieces[k])
    ensures |sentences| <= |pieces|
    ensures forall k :: 0 <= k < |sentences| ==> Sentence(sentences[k])
  {
    if pieces == [] then []
    else
      var s := Strip(pieces[0]);
      StripFacts(pieces[0]);
      (if s != [] then [s] else []) + Clean(pieces[1..])
  }

  /** A sentence is non-empty, has no sentence end inside and no whitespace
      at either end. */
  predicate Sentence(s: string) {
    s != [] && NoStop(s) && !IsSpace(s[0]) && !IsSpace(s[|s| - 1])
  }

  lemma StripFacts(piece: string)
    requires NoStop(piece)
    ensures Strip(piece) != [] ==> Sentence(Strip(piece))
  {
    StripIsInner(piece);
    var a := |piece| - |TrimStart(piece)|;
    var r := Strip(piece);
    forall k | 0 <= k < |r| ensures !IsStop(r[k]) {
      assert r[k] == piece[a + k];
    }
  }

  /** `[s.strip() for s in re.split(r'[.!?]+', text) if s.strip()]`. */
  function Sentences(text: string): (sentences: seq<string>)
    ensures forall k :: 0 <= k < |sentences| ==> Sentence(sentences[k])
  {
    Clean(RunSplit(text))
  }

  // ---------------------------------------------------------------------
  // Literal pieces of the citation patterns of programs 7 and 9
  // ---------------------------------------------------------------------

  /** `w` occurs at `i`. */
  predicate SliceIs(s: string, i: nat, w: string) {
    i + |w| <= |s| && s[i..i + |w|] == w
  }

  /** A text that lacks one of the letters of `w` has no occurrence of
      `w`. */
  lemma LetterMissing(s: string, w: string, q: nat)
    requires q < |w| && w[q] !in s
    ensures forall k :: !SliceIs(s, k, w)
  {
    forall k: nat | k + |w| <= |s| ensures !SliceIs(s, k, w) {
      assert s[k..k + |w|][q] == s[k + q];
    }
  }

  /** `<open>\d{4}<close>` matches at `i`. */
  predicate YearAt(s: string, i: nat, open: char, close: char) {
    i + 6 <= |s| && s[i] == open && AllDigits(s[i + 1..i + 5]) && s[i + 5] == close
  }

  /** Start of the maximal run of digits that ends at `j`. */
  function BackDigits(s: string, j: nat): (i: nat)
    requires j <= |s|
    ensures i <= j
    ensures forall k :: i <= k < j ==> IsDigit(s[k])
    ensures i == 0 || !IsDigit(s[i - 1])
  {
    if j == 0 || !IsDigit(s[j - 1]) then j else BackDigits(s, j - 1)
  }

  predicate Visible(s: string) {
    Strip(s) != []
  }

  /** Non-empty, with no whitespace at either end. */
  predicate Inner(s: string) {
    s != [] && !IsSpace(s[0]) && !IsSpace(s[|s| - 1])
  }

  /** `[p.strip() for p in parts if p.strip()]`: the pieces, stripped, the
      blank ones dropped. */
  function StripBlanks(parts: seq<string>): (r: seq<string>)
    ensures forall k :: 0 <= k < |r| ==> Inner(r[k])
  {
    var kept := Filter(parts, Visible);
    assert forall k :: 0 <= k < |kept| ==> Inner(Strip(kept[k])) by {
      forall k | 0 <= k < |kept| ensures Inner(Strip(kept[k])) {
        assert kept[k] in kept;
        StripIsInner(kept[k]);
      }
    }
    StripAll(kept)
  }
}
