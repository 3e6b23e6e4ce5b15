/** ASCII text helpers the translator takes from the standard library, and
    what printing a number and reading it back do to each other. */
module Text {
  import opened Wrappers

  function LowerChar(c: char): char {
    if 'A' <= c <= 'Z' then (c as int + 32) as char else c
  }

  /** `to_ascii_lowercase`. */
  function Lower(s: string): (r: string)
    ensures |r| == |s|
    ensures forall i :: 0 <= i < |s| ==> r[i] == LowerChar(s[i])
  {
    seq(|s|, i requires 0 <= i < |s| => LowerChar(s[i]))
  }

  predicate IsDigit(c: char) {
    '0' <= c <= '9'
  }

  predicate IsAlphabetic(c: char) {
    'a' <= c <= 'z' || 'A' <= c <= 'Z'
  }

  /** Unicode's White_Space. */
  predicate IsSpace(c: char) {
    || '\t' <= c <= '\r' || c == ' ' || c == '\U{85}' || c == '\U{A0}' || c == '\U{1680}'
    || '\U{2000}' <= c <= '\U{200A}' || c == '\U{2028}' || c == '\U{2029}' || c == '\U{202F}'
    || c == '\U{205F}' || c == '\U{3000}'
  }

  predicate AllDigits(s: string) {
    forall i :: 0 <= i < |s| ==> IsDigit(s[i])
  }

  function Pow10(k: nat): (p: nat)
    ensures p >= 1
  {
    if k == 0 then 1 else 10 * Pow10(k - 1)
  }

  lemma {:induction false} Pow10Adds(a: nat, b: nat)
    ensures Pow10(a + b) == Pow10(a) * Pow10(b)
  {
    if a > 0 {
      Pow10Adds(a - 1, b);
    }
  }

  // ---------------------------------------------------------------------
  // Decimal digits
  // ---------------------------------------------------------------------

  function DigitChar(d: nat): (c: char)
    requires d < 10
    ensures IsDigit(c) && c as int - '0' as int == d
  {
    ('0' as int + d) as char
  }

  /** The number a run of digits spells. */
  function Value(s: string): nat
    requires AllDigits(s)
  {
    if |s| == 0 then 0 else Value(s[..|s| - 1]) * 10 + (s[|s| - 1] as int - '0' as int)
  }

  /** `n` in decimal, without leading zeros. */
  function Digits(n: nat): (s: string)
    ensures AllDigits(s) && |s| >= 1
  {
    if n < 10 then [DigitChar(n)] else Digits(n / 10) + [DigitChar(n % 10)]
  }

  function IntText(i: int): string {
    if i < 0 then "-" + Digits(-i) else Digits(i)
  }

  function Zeros(k: nat): (s: string)
    ensures |s| == k && AllDigits(s) && forall i :: 0 <= i < k ==> s[i] == '0'
  {
    seq(k, _ => '0')
  }

  /** `{:0width}`. */
  function Pad(n: nat, width: nat): (s: string)
    ensures AllDigits(s) && |s| >= width && |s| >= 1
  {
    var digits := Digits(n);
    if |digits| >= width then digits else Zeros(width - |digits|) + digits
  }

  /** `trim_end_matches('0')`. */
  function TrimZeros(s: string): (r: string)
    ensures |r| <= |s| && r == s[..|r|] && (|r| > 0 ==> r[|r| - 1] != '0')
  {
    if |s| > 0 && s[|s| - 1] == '0' then TrimZeros(s[..|s| - 1]) else s
  }

  lemma {:induction false} ValueOfDigits(n: nat)
    ensures Value(Digits(n)) == n
  {
    if n >= 10 {
      ValueOfDigits(n / 10);
      assert Digits(n)[..|Digits(n)| - 1] == Digits(n / 10);
    }
  }

  lemma {:induction false} ValueOfConcat(a: string, b: string)
    requires AllDigits(a) && AllDigits(b)
    ensures Value(a + b) == Value(a) * Pow10(|b|) + Value(b)
  {
    if |b| == 0 {
      assert a + b == a;
    } else {
      assert (a + b)[..|a + b| - 1] == a + b[..|b| - 1];
      ValueOfConcat(a, b[..|b| - 1]);
      var p := Pow10(|b| - 1);
      assert Value(a) * (10 * p) == (Value(a) * p) * 10;
    }
  }

  lemma {:induction false} ValueOfZeros(k: nat)
    ensures Value(Zeros(k)) == 0
  {
    if k > 0 {
      ValueOfZeros(k - 1);
      assert Zeros(k)[..k - 1] == Zeros(k - 1);
    }
  }

  lemma ValueOfPad(n: nat, width: nat)
    ensures Value(Pad(n, width)) == n
  {
    hide Value, Pow10, Digits;
    ValueOfDigits(n);
    if |Digits(n)| < width {
      ValueOfZeros(width - |Digits(n)|);
      ValueOfConcat(Zeros(width - |Digits(n)|), Digits(n));
    }
  }

  /** `k` digits spell what `k` digits can. */
  lemma {:induction false} ValueIsBelow(s: string)
    requires AllDigits(s)
    ensures Value(s) < Pow10(|s|)
  {
    if |s| > 0 {
      ValueIsBelow(s[..|s| - 1]);
    }
  }

  lemma {:induction false} DigitsLength(n: nat, k: nat)
    requires k >= 1 && n < Pow10(k)
    ensures |Digits(n)| <= k
  {
    if n >= 10 {
      assert k > 1;
      DigitsLength(n / 10, k - 1);
    }
  }

  /** A number that fits its width prints at exactly that width. */
  lemma PadLength(n: nat, width: nat)
    requires width >= 1 && n < Pow10(width)
    ensures |Pad(n, width)| == width
  {
    DigitsLength(n, width);
  }

  /** Dropping trailing zeros divides by their power of ten. */
  lemma {:induction false} TrimmedValue(s: string)
    requires AllDigits(s)
    ensures AllDigits(TrimZeros(s)) && Value(s) == Value(TrimZeros(s)) * Pow10(|s| - |TrimZeros(s)|)
  {
    if |s| > 0 && s[|s| - 1] == '0' {
      var r := s[..|s| - 1];
      TrimmedValue(r);
      var p := Pow10(|r| - |TrimZeros(r)|);
      assert Pow10(|s| - |TrimZeros(s)|) == 10 * p;
      assert Value(TrimZeros(r)) * (10 * p) == (Value(TrimZeros(r)) * p) * 10;
    }
  }

  // ---------------------------------------------------------------------
  // Finding and splitting
  // ---------------------------------------------------------------------

  predicate Contains(s: string, c: char) {
    exists i :: 0 <= i < |s| && s[i] == c
  }

  /** The first position of `c`. */
  function Find(s: string, c: char): (r: Option<nat>)
    ensures r.Some? ==> r.value < |s| && s[r.value] == c && forall i :: 0 <= i < r.value ==> s[i] != c
    ensures r.None? ==> !Contains(s, c)
  {
    if |s| == 0 then None
    else if s[0] == c then Some(0)
    else match Find(s[1..], c)
         case None => assert forall i :: 0 < i < |s| ==> s[i] == s[1..][i - 1]; None
         case Some(i) => assert forall j :: 0 < j <= i ==> s[j] == s[1..][j - 1]; Some(i + 1)
  }

  /** `split_once`. */
  function SplitOnce(s: string, c: char): Option<(string, string)> {
    match Find(s, c)
    case None => None
    case Some(i) => Some((s[..i], s[i + 1..]))
  }

  /** `split`. */
  function SplitAll(s: string, c: char): (parts: seq<string>)
    ensures |parts| >= 1
    decreases |s|
  {
    match Find(s, c)
    case None => [s]
    case Some(i) => [s[..i]] + SplitAll(s[i + 1..], c)
  }

  lemma DigitsHoldNoOther(s: string, c: char)
    requires AllDigits(s) && !IsDigit(c)
    ensures !Contains(s, c)
  {
  }

  lemma FindAt(a: string, c: char, b: string)
    requires !Contains(a, c)
    ensures Find(a + [c] + b, c) == Some(|a|)
  {
    var s := a + [c] + b;
    assert s[|a|] == c;
    forall i | 0 <= i < |a| ensures s[i] != c {
      assert s[i] == a[i];
    }
  }

  lemma SplitAllAt(a: string, c: char, b: string)
    requires !Contains(a, c)
    ensures SplitAll(a + [c] + b, c) == [a] + SplitAll(b, c)
    ensures SplitOnce(a + [c] + b, c) == Some((a, b))
  {
    FindAt(a, c, b);
    assert (a + [c] + b)[..|a|] == a && (a + [c] + b)[|a| + 1..] == b;
  }

  lemma SplitNowhere(s: string, c: char)
    requires !Contains(s, c)
    ensures SplitAll(s, c) == [s] && SplitOnce(s, c) == None
  {
  }

  function TrimStart(s: string): (r: string)
    ensures |r| <= |s|
  {
    if |s| > 0 && IsSpace(s[0]) then TrimStart(s[1..]) else s
  }

  function TrimEnd(s: string): (r: string)
    ensures |r| <= |s|
  {
    if |s| > 0 && IsSpace(s[|s| - 1]) then TrimEnd(s[..|s| - 1]) else s
  }

  /** `trim`. */
  function Trim(s: string): string {
    TrimEnd(TrimStart(s))
  }

  predicate StartsWith(s: string, prefix: string) {
    prefix <= s
  }

  predicate EndsWith(s: string, suffix: string) {
    |suffix| <= |s| && s[|s| - |suffix|..] == suffix
  }

  // ---------------------------------------------------------------------
  // Words
  // ---------------------------------------------------------------------

  function WordEnd(s: string): (k: nat)
    ensures k <= |s|
    ensures forall i :: 0 <= i < k ==> !IsSpace(s[i])
    ensures k < |s| ==> IsSpace(s[k])
  {
    if |s| == 0 || IsSpace(s[0]) then 0
    else
      var k := WordEnd(s[1..]);
      assert forall i :: 0 < i < k + 1 ==> s[i] == s[1..][i - 1];
      k + 1
  }

  /** `split_whitespace`. */
  function Words(s: string): seq<string>
    decreases |s|
  {
    if |s| == 0 then []
    else if IsSpace(s[0]) then Words(s[1..])
    else [s[..WordEnd(s)]] + Words(s[WordEnd(s)..])
  }

  /** Words with one space between. */
  function Join(words: seq<string>): string {
    if |words| == 0 then "" else if |words| == 1 then words[0] else words[0] + " " + Join(words[1..])
  }

  predicate IsWord(s: string) {
    |s| > 0 && forall i :: 0 <= i < |s| ==> !IsSpace(s[i])
  }

  /** A word before a space is the first of the words. */
  lemma WordFirst(w: string, rest: string)
    requires IsWord(w)
    ensures Words(w + " " + rest) == [w] + Words(rest)
  {
    var s := w + " " + rest;
    assert WordEnd(s) == |w| by {
      assert forall i :: 0 <= i < |w| ==> s[i] == w[i];
      assert s[|w|] == ' ';
    }
    assert s[..|w|] == w && s[|w|..] == [' '] + rest;
    assert ([' '] + rest)[1..] == rest;
    assert Words([' '] + rest) == Words(rest);
  }

  lemma {:induction false} JoinThenWords(words: seq<string>)
    requires forall i :: 0 <= i < |words| ==> IsWord(words[i])
    ensures Words(Join(words)) == words
  {
    if |words| == 1 {
      WordAlone(words[0]);
    } else if |words| > 1 {
      JoinThenWords(words[1..]);
      WordFirst(words[0], Join(words[1..]));
    }
  }

  lemma WordAlone(w: string)
    requires IsWord(w)
    ensures Words(w) == [w]
  {
    assert WordEnd(w) == |w|;
    assert w[..|w|] == w && w[|w|..] == "";
  }

  /** A part of two words joins as its words do. */
  lemma PartIsTwoWords(a: string, b: string, rest: seq<string>, words: seq<string>)
    requires Join(rest) == Join(words) && (|rest| == 0 <==> |words| == 0)
    ensures Join([a + " " + b] + rest) == Join([a, b] + words)
  {
    assert ([a + " " + b] + rest)[1..] == rest;
    assert ([a, b] + words)[1..] == [b] + words && ([b] + words)[1..] == words;
    assert a + " " + (b + " " + Join(words)) == a + " " + b + " " + Join(words);
  }

  /** A join starts with its first word and ends with its last. */
  lemma {:induction false} JoinEnds(words: seq<string>)
    requires |words| > 0 && forall i :: 0 <= i < |words| ==> |words[i]| > 0
    ensures var t, last := Join(words), words[|words| - 1];
            |t| > 0 && t[0] == words[0][0] && t[|t| - 1] == last[|last| - 1]
    ensures |words| > 1 ==> Contains(Join(words), ' ')
    ensures |words| == 1 ==> Join(words) == words[0]
  {
    if |words| > 1 {
      JoinEnds(words[1..]);
      assert Join(words)[|words[0]|] == ' ';
    }
  }

  lemma TrimNothing(s: string)
    requires |s| > 0 ==> !IsSpace(s[0]) && !IsSpace(s[|s| - 1])
    ensures Trim(s) == s
  {
  }

  predicate Blank(gap: string) {
    forall i :: 0 <= i < |gap| ==> IsSpace(gap[i])
  }

  /** What is between the spaces is left. */
  lemma {:induction false} TrimEndsAt(s: string, gap: string)
    requires Blank(gap) && (|s| > 0 ==> !IsSpace(s[|s| - 1]))
    ensures TrimEnd(s + gap) == s
    decreases |gap|
  {
    if |gap| == 0 {
      assert s + gap == s;
    } else {
      assert (s + gap)[..|s + gap| - 1] == s + gap[..|gap| - 1];
      TrimEndsAt(s, gap[..|gap| - 1]);
    }
  }

  lemma {:induction false} TrimLeaves(before: string, s: string, after: string)
    requires Blank(before) && Blank(after) && |s| > 0 && !IsSpace(s[0]) && !IsSpace(s[|s| - 1])
    ensures Trim(before + s + after) == s
    decreases |before|
  {
    if |before| == 0 {
      assert before + s + after == s + after && (s + after)[0] == s[0];
      TrimEndsAt(s, after);
    } else {
      assert (before + s + after)[1..] == before[1..] + s + after;
      TrimLeaves(before[1..], s, after);
    }
  }

  // ---------------------------------------------------------------------
  // Order of texts
  // ---------------------------------------------------------------------

  /** Character order, which for ASCII is byte order. */
  predicate Before(a: string, b: string) {
    |b| > 0 && (|a| == 0 || a[0] < b[0] || (a[0] == b[0] && Before(a[1..], b[1..])))
  }

  lemma {:induction false} BeforeItself(a: string)
    ensures !Before(a, a)
  {
    if |a| > 0 {
      BeforeItself(a[1..]);
    }
  }

  /** Equal lengths compare first, then what follows them. */
  lemma {:induction false} BeforeConcat(a: string, b: string, c: string, d: string)
    requires |a| == |b|
    ensures Before(a + c, b + d) <==> Before(a, b) || (a == b && Before(c, d))
  {
    if |a| == 0 {
      assert a + c == c && b + d == d;
    } else {
      assert (a + c)[1..] == a[1..] + c && (b + d)[1..] == b[1..] + d;
      BeforeConcat(a[1..], b[1..], c, d);
      assert a == b <==> a[0] == b[0] && a[1..] == b[1..];
    }
  }

  lemma ValueFromFront(s: string)
    requires AllDigits(s) && |s| > 0
    ensures Value(s) == (s[0] as int - '0' as int) * Pow10(|s| - 1) + Value(s[1..])
  {
    hide Value, Pow10;
    assert s == [s[0]] + s[1..];
    ValueOfConcat([s[0]], s[1..]);
    ValueOfOne(s[0]);
  }

  lemma ValueOfOne(c: char)
    requires IsDigit(c)
    ensures Value([c]) == c as int - '0' as int
  {
    assert [c][..0] == "";
  }

  /** Digits of one length compare as the numbers they spell. */
  lemma {:induction false} BeforeDigits(a: string, b: string)
    requires AllDigits(a) && AllDigits(b) && |a| == |b|
    ensures Before(a, b) <==> Value(a) < Value(b)
  {
    if |a| > 0 {
      BeforeDigits(a[1..], b[1..]);
      ValueFromFront(a);
      ValueFromFront(b);
      ValueIsBelow(a[1..]);
      ValueIsBelow(b[1..]);
      LeadingDigit(a[0] as int - '0' as int, b[0] as int - '0' as int, Pow10(|a| - 1), Value(a[1..]), Value(b[1..]));
    }
  }

  lemma LeadingDigit(x: int, y: int, p: int, u: int, v: int)
    requires 0 <= u < p && 0 <= v < p
    ensures x * p + u < y * p + v <==> x < y || (x == y && u < v)
  {
    if x < y {
      AtLeastOnce(x, y, p);
    } else if x > y {
      AtLeastOnce(y, x, p);
    }
  }

  lemma AtLeastOnce(x: int, y: int, p: int)
    requires x < y && p >= 0
    ensures x * p + p <= y * p
    decreases y - x
  {
    if x + 1 < y {
      AtLeastOnce(x + 1, y, p);
    }
    assert (x + 1) * p == x * p + p;
  }

  /** Numbers that fit one width compare as their padded texts. */
  lemma BeforePadded(m: nat, n: nat, width: nat)
    requires width >= 1 && m < Pow10(width) && n < Pow10(width)
    ensures |Pad(m, width)| == |Pad(n, width)| == width
    ensures Before(Pad(m, width), Pad(n, width)) <==> m < n
    ensures Pad(m, width) == Pad(n, width) <==> m == n
  {
    PadLength(m, width);
    PadLength(n, width);
    ValueOfPad(m, width);
    ValueOfPad(n, width);
    BeforeDigits(Pad(m, width), Pad(n, width));
  }

  /** The same padding and separator in front of two texts. */
  lemma BeforeField(m: nat, n: nat, width: nat, separator: string, rest: string, rest': string)
    requires width >= 1 && m < Pow10(width) && n < Pow10(width)
    ensures Before(Pad(m, width) + (separator + rest), Pad(n, width) + (separator + rest')) <==>
        m < n || (m == n && Before(rest, rest'))
  {
    BeforePadded(m, n, width);
    BeforeConcat(Pad(m, width), Pad(n, width), separator + rest, separator + rest');
    BeforeConcat(separator, separator, rest, rest');
    BeforeItself(separator);
  }
}
