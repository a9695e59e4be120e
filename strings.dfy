/** The Python string operations the analyzer relies on, on `seq<char>`:
    `startswith`, `endswith`, the substring test `t in s`, `str.strip()`,
    `sep.join(...)`, `split('/')[-1]`, and the quoted-string regex `"(.*?)"`
    as used by `re.findall` and `re.search`. */
module Strings {
  import opened Sequences

  predicate StartsWith(s: string, prefix: string) {
    |prefix| <= |s| && s[..|prefix|] == prefix
  }

  predicate EndsWith(s: string, suffix: string) {
    |suffix| <= |s| && s[|s| - |suffix|..] == suffix
  }

  /** Python's `t in s` on strings: `t` occurs in `s` as a contiguous piece. */
  predicate Contains(s: string, t: string)
    decreases |s|
  {
    StartsWith(s, t) || (|s| > 0 && Contains(s[1..], t))
  }

  /** Contains agrees with the positional definition of a substring occurrence. */
  lemma {:induction false} ContainsAt(s: string, t: string, i: nat)
    requires i + |t| <= |s| && s[i..i + |t|] == t
    ensures Contains(s, t)
    decreases i
  {
    if i == 0 {
      assert s[..|t|] == t;
    } else {
      assert s[1..][i - 1..i - 1 + |t|] == s[i..i + |t|];
      ContainsAt(s[1..], t, i - 1);
    }
  }

  lemma {:induction false} ContainsWitness(s: string, t: string) returns (i: nat)
    requires Contains(s, t)
    ensures i + |t| <= |s| && s[i..i + |t|] == t
    decreases |s|
  {
    if StartsWith(s, t) {
      i := 0;
    } else {
      var j := ContainsWitness(s[1..], t);
      assert s[1..][j..j + |t|] == s[j + 1..j + 1 + |t|];
      i := j + 1;
    }
  }

  /** An occurrence of `t` in `s` is still an occurrence in any text around `s`. */
  lemma ContainsInContext(x: string, s: string, y: string, t: string)
    requires Contains(s, t)
    ensures Contains(x + s + y, t)
  {
    var i := ContainsWitness(s, t);
    assert (x + s + y)[|x| + i..|x| + i + |t|] == s[i..i + |t|];
    ContainsAt(x + s + y, t, |x| + i);
  }

  lemma {:induction false} StartsWithExtend(s: string, prefix: string, x: string)
    requires StartsWith(s, prefix)
    ensures StartsWith(s + x, prefix)
  {
    assert (s + x)[..|prefix|] == s[..|prefix|];
  }

  /** Python's `str.isspace()` on one character: the characters that `str.strip()`
      with no argument removes. */
  predicate IsSpace(c: char) {
    var n := c as int;
    (0x09 <= n <= 0x0D) || (0x1C <= n <= 0x20) || n == 0x85 || n == 0xA0 || n == 0x1680 ||
    (0x2000 <= n <= 0x200A) || n == 0x2028 || n == 0x2029 || n == 0x202F || n == 0x205F ||
    n == 0x3000
  }

  predicate AllSpace(s: string) {
    forall k :: 0 <= k < |s| ==> IsSpace(s[k])
  }

  /** The index of the first non-whitespace character of `s` at or after `i`, or `|s|`. */
  function SkipSpaces(s: string, i: nat): (j: nat)
    requires i <= |s|
    ensures i <= j <= |s|
    ensures forall k :: i <= k < j ==> IsSpace(s[k])
    ensures j < |s| ==> !IsSpace(s[j])
    decreases |s| - i
  {
    if i == |s| || !IsSpace(s[i]) then i else SkipSpaces(s, i + 1)
  }

  /** The end of `s[lo..j]` once its trailing whitespace is removed. */
  function TrimEnd(s: string, lo: nat, j: nat): (e: nat)
    requires lo <= j <= |s|
    ensures lo <= e <= j
    ensures forall k :: e <= k < j ==> IsSpace(s[k])
    ensures e > lo ==> !IsSpace(s[e - 1])
    decreases j
  {
    if j == lo || !IsSpace(s[j - 1]) then j else TrimEnd(s, lo, j - 1)
  }

  /** Python's `s.strip()`: `s` without its leading and trailing whitespace. */
  function Strip(s: string): string
  {
    var i := SkipSpaces(s, 0);
    s[i..TrimEnd(s, i, |s|)]
  }

  /** The stripped text is the piece of `s` left between leading and trailing
      whitespace; it is empty exactly when `s` is all whitespace, and it starts and
      ends with a non-whitespace character otherwise. */
  lemma StripShape(s: string)
    ensures var r := Strip(s);
      (exists i :: TrimmedAt(s, r, i)) &&
      (r == [] <==> AllSpace(s)) &&
      (r != [] ==> !IsSpace(r[0]) && !IsSpace(r[|r| - 1]))
  {
    var i := SkipSpaces(s, 0);
    var j := TrimEnd(s, i, |s|);
    assert Strip(s) == s[i..j];
    assert TrimmedAt(s, s[i..j], i);
    if i < |s| {
      assert !IsSpace(s[i]);
    }
  }

  /** `r` is the piece of `s` starting at `i`, with only whitespace around it. */
  predicate TrimmedAt(s: string, r: string, i: nat) {
    i + |r| <= |s| && r == s[i..i + |r|] &&
    (forall k :: 0 <= k < i ==> IsSpace(s[k])) &&
    (forall k :: i + |r| <= k < |s| ==> IsSpace(s[k]))
  }

  /** Python's `sep.join(xs)`. */
  function Join(sep: string, xs: seq<string>): string
  {
    if |xs| == 0 then ""
    else if |xs| == 1 then xs[0]
    else xs[0] + sep + Join(sep, xs[1..])
  }

  /** A join of whitespace lines with a whitespace separator is all whitespace, and
      only then. */
  lemma {:induction false} JoinAllSpace(sep: string, xs: seq<string>)
    requires AllSpace(sep)
    ensures AllSpace(Join(sep, xs)) <==> forall i :: 0 <= i < |xs| ==> AllSpace(xs[i])
  {
    if |xs| > 1 {
      JoinAllSpace(sep, xs[1..]);
      var rest := Join(sep, xs[1..]);
      AllSpaceConcat(xs[0], sep);
      AllSpaceConcat(xs[0] + sep, rest);
      assert forall i :: 1 <= i < |xs| ==> xs[i] == xs[1..][i - 1];
    }
  }

  lemma AllSpaceConcat(a: string, b: string)
    ensures AllSpace(a + b) <==> AllSpace(a) && AllSpace(b)
  {
    if AllSpace(a) && AllSpace(b) {
      forall k | 0 <= k < |a + b| ensures IsSpace((a + b)[k]) {
        if k >= |a| { assert (a + b)[k] == b[k - |a|]; }
      }
    }
    if AllSpace(a + b) {
      forall k | 0 <= k < |a| ensures IsSpace(a[k]) {
        assert (a + b)[k] == a[k];
      }
      forall k | 0 <= k < |b| ensures IsSpace(b[k]) {
        assert (a + b)[|a| + k] == b[k];
      }
    }
  }

  /** Python's `t.split('/')[-1]`: the longest suffix of `t` without a `/`. */
  function AfterLastSlash(t: string): (r: string)
    ensures EndsWith(t, r)
    ensures '/' !in r
    ensures |r| == |t| || t[|t| - |r| - 1] == '/'
  {
    if t == [] then []
    else if t[|t| - 1] == '/' then []
    else
      var r := AfterLastSlash(t[..|t| - 1]);
      assert t[|t| - |r| - 1..] == t[..|t| - 1][|t| - 1 - |r|..] + [t[|t| - 1]];
      r + [t[|t| - 1]]
  }

  /** The index of the `"` that closes a quoted string whose text starts at `k`:
      the first `"` at or after `k`, provided no newline comes before it (the `.` of
      the regex `"(.*?)"` matches every character except a newline, and the lazy `*?`
      stops at the first closing quote). */
  function ClosingQuote(s: string, k: nat): (r: Option<nat>)
    requires k <= |s|
    ensures r.Some? ==> k <= r.value < |s| && s[r.value] == '"'
    ensures r.Some? ==> forall m :: k <= m < r.value ==> s[m] != '"' && s[m] != '\n'
    ensures r.None? ==> forall j :: k <= j < |s| && s[j] == '"' ==> exists m :: k <= m < j && s[m] == '\n'
    decreases |s| - k
  {
    if k == |s| then None
    else if s[k] == '"' then Some(k)
    else if s[k] == '\n' then None
    else ClosingQuote(s, k + 1)
  }

  /** `re.findall(r'"(.*?)"', s)`: scanning left to right, a `"` followed by a closing
      quote yields the text between them and the scan resumes after the closing quote;
      a `"` with no closing quote on its line is skipped like any other character. */
  function QuotedStrings(s: string): (r: seq<string>)
    decreases |s|
  {
    if |s| == 0 then []
    else if s[0] == '"' then
      match ClosingQuote(s, 1)
      case Some(j) => [s[1..j]] + QuotedStrings(s[j + 1..])
      case None => QuotedStrings(s[1..])
    else
      QuotedStrings(s[1..])
  }

  /** `t` occurs in `s` between two quotes, the opening one at index `i`. */
  predicate QuotedAt(s: string, t: string, i: nat) {
    i + |t| + 2 <= |s| && s[i] == '"' && s[i + 1..i + 1 + |t|] == t && s[i + 1 + |t|] == '"'
  }

  /** `t` occurs in `s` between two quotes. */
  predicate Quoted(s: string, t: string) {
    exists i: nat :: i < |s| && QuotedAt(s, t, i)
  }

  /** A quoted occurrence in a suffix of `s` is one in `s`. */
  lemma QuotedInSuffix(s: string, k: nat, t: string)
    requires k <= |s| && Quoted(s[k..], t)
    ensures Quoted(s, t)
  {
    var i: nat :| i < |s[k..]| && QuotedAt(s[k..], t, i);
    assert s[k..][i + 1..i + 1 + |t|] == s[i + k + 1..i + k + 1 + |t|];
    assert QuotedAt(s, t, i + k);
  }

  /** Every extracted string occurs in the text between two quotes, so it holds no
      quote and no newline and is at least two characters shorter than the text. */
  lemma {:induction false} QuotedStringsShape(s: string)
    ensures forall t :: t in QuotedStrings(s) ==>
      '"' !in t && '\n' !in t && |t| + 2 <= |s| && Contains(s, t) && Quoted(s, t)
    decreases |s|
  {
    if |s| > 0 {
      if s[0] == '"' && ClosingQuote(s, 1).Some? {
        var j := ClosingQuote(s, 1).value;
        QuotedStringsShape(s[j + 1..]);
        assert s[1..j] == s[1..1 + |s[1..j]|];
        assert QuotedAt(s, s[1..j], 0);
        ContainsAt(s, s[1..j], 1);
        SuffixContained(s, j + 1);
        forall t | t in QuotedStrings(s[j + 1..]) ensures Quoted(s, t) {
          QuotedInSuffix(s, j + 1, t);
        }
      } else {
        QuotedStringsShape(s[1..]);
        ShiftedQuoted(s);
        forall t | t in QuotedStrings(s[1..]) ensures Quoted(s, t) {
          QuotedInSuffix(s, 1, t);
        }
      }
    }
  }

  lemma SuffixContained(s: string, i: nat)
    requires i <= |s|
    ensures forall t :: Contains(s[i..], t) ==> Contains(s, t)
  {
    forall t | Contains(s[i..], t) ensures Contains(s, t) {
      ContainsInContext(s[..i], s[i..], [], t);
      assert s[..i] + s[i..] + [] == s;
    }
  }

  lemma ShiftedQuoted(s: string)
    requires |s| > 0
    ensures forall t :: Contains(s[1..], t) ==> Contains(s, t)
  {
  }

  /** `re.search(r'"(.*?)"', s).group(1)`: the first quoted string, if any. */
  function FirstQuoted(s: string): (r: Option<string>)
    ensures r.Some? <==> QuotedStrings(s) != []
    ensures r.Some? ==> r.value == QuotedStrings(s)[0]
  {
    var all := QuotedStrings(s);
    if all == [] then None else Some(all[0])
  }

  /** The text `"w0""w1"..."wn"`. */
  function Enquote(ws: seq<string>): string
  {
    if ws == [] then "" else "\"" + ws[0] + "\"" + Enquote(ws[1..])
  }

  /** Extracting the quoted strings of a text made of quoted words gives back those
      words, as long as no word holds a quote or a newline. */
  lemma {:induction false} QuotedStringsOfEnquote(ws: seq<string>)
    requires forall w :: w in ws ==> '"' !in w && '\n' !in w
    ensures QuotedStrings(Enquote(ws)) == ws
  {
    if ws != [] {
      var w := ws[0];
      var s := Enquote(ws);
      assert s == "\"" + w + "\"" + Enquote(ws[1..]);
      ClosingQuoteAfterWord(s, w);
      assert s[1..|w| + 1] == w;
      assert s[|w| + 2..] == Enquote(ws[1..]);
      QuotedStringsOfEnquote(ws[1..]);
    }
  }

  lemma {:induction false} ClosingQuoteAfterWord(s: string, w: string)
    requires |s| >= |w| + 2 && s[0] == '"' && s[1..|w| + 1] == w && s[|w| + 1] == '"'
    requires '"' !in w && '\n' !in w
    ensures ClosingQuote(s, 1) == Some(|w| + 1)
  {
    var k := |w| + 1;
    while k > 1
      invariant 1 <= k <= |w| + 1
      invariant ClosingQuote(s, k) == Some(|w| + 1)
    {
      assert s[k - 1] == w[k - 2];
      k := k - 1;
    }
  }
}
