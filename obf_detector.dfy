/** The heuristic obfuscation detector of obf_detector.py. A method is reported as
    "may be obfuscated" when its simple class name or its method name is short, or,
    failing that, when one of the double-quoted strings of its code is long and has
    a high Shannon entropy (looks randomly generated).

    `math.log2` is a foreign floating-point function: it is the parameter `log2`, and
    Python floats are modelled as reals. */
module ObfDetector {
  import opened Sequences
  import opened Strings

  const DefaultEntropyThreshold: real := 4.5
  const DefaultMinStrLen: int := 30
  const DefaultShortNameLen: int := 2

  /** `(cls, mth)`: the class descriptor and the method name a snippet comes from. */
  type Meta = (string, string)

  /** The class name as written in the report: for a JVM descriptor `La/b/C;` the
      last `/`-separated segment of what lies between `L` and `;`, otherwise the
      name unchanged. */
  function SimpleClassName(cls: string): string
  {
    if StartsWith(cls, "L") && EndsWith(cls, ";") then
      assert cls[0] == cls[..1][0] == 'L';
      assert cls[|cls| - 1] == cls[|cls| - 1..][0] == ';';
      AfterLastSlash(cls[1..|cls| - 1])
    else
      cls
  }

  /** For a descriptor `L…;`, the simple name is a slash-free tail of the text between
      `L` and `;`, preceded there by `/` unless it is all of that text; any other
      name is kept as it is. */
  lemma SimpleClassNameShape(cls: string)
    ensures var r := SimpleClassName(cls);
      if StartsWith(cls, "L") && EndsWith(cls, ";") then
        '/' !in r && |r| + 2 <= |cls| && EndsWith(cls[..|cls| - 1], r) &&
        (|r| + 2 == |cls| || cls[|cls| - |r| - 2] == '/')
      else
        r == cls
  {
    if StartsWith(cls, "L") && EndsWith(cls, ";") {
      assert cls[0] == cls[..1][0] == 'L';
      assert cls[|cls| - 1] == cls[|cls| - 1..][0] == ';';
      var inner := cls[1..|cls| - 1];
      var r := AfterLastSlash(inner);
      assert cls[..|cls| - 1][|cls| - 1 - |r|..] == inner[|inner| - |r|..];
    }
  }

  /** The simple name of a class declared in a package is its own name. */
  lemma SimpleClassNameInPackage(package: string, name: string)
    requires '/' !in name
    ensures SimpleClassName("L" + package + "/" + name + ";") == name
  {
    var cls := "L" + package + "/" + name + ";";
    assert StartsWith(cls, "L") && EndsWith(cls, ";");
    var inner := cls[1..|cls| - 1];
    assert inner == package + "/" + name;
    var r := AfterLastSlash(inner);
    SlashFreeSuffix(inner, name);
  }

  /** A class in the default package: `LName;` has simple name `Name`. */
  lemma SimpleClassNameNoPackage(name: string)
    requires '/' !in name
    ensures SimpleClassName("L" + name + ";") == name
  {
    var cls := "L" + name + ";";
    assert StartsWith(cls, "L") && EndsWith(cls, ";");
    assert cls[1..|cls| - 1] == name;
    var r := AfterLastSlash(name);
    if |r| < |name| {
      assert false;
    }
    assert r == name[|name| - |r|..];
  }

  lemma SlashFreeSuffix(t: string, name: string)
    requires '/' !in name && |t| > |name| && t[|t| - |name|..] == name && t[|t| - |name| - 1] == '/'
    ensures AfterLastSlash(t) == name
  {
    var r := AfterLastSlash(t);
    if |r| > |name| {
      assert false;
    } else if |r| < |name| {
      assert false;
    }
    assert r == t[|t| - |r|..];
  }

  /** The name rule: a short simple class name or a short method name. */
  predicate HasShortName(shortNameLen: int, meta: Meta) {
    |SimpleClassName(meta.0)| <= shortNameLen || |meta.1| <= shortNameLen
  }

  /** The string rule: some quoted string of the snippet is longer than `minStrLen`
      and its entropy exceeds the threshold. */
  predicate HasRandomString(minStrLen: int, entropyThreshold: real, snippet: string, log2: real -> real) {
    SomeLooksRandom(minStrLen, entropyThreshold, QuotedStrings(snippet), log2)
  }

  /** Some string of `strs` looks random. */
  predicate SomeLooksRandom(minStrLen: int, entropyThreshold: real, strs: seq<string>, log2: real -> real) {
    strs != [] &&
    (SomeLooksRandom(minStrLen, entropyThreshold, strs[..|strs| - 1], log2) ||
     LooksRandom(minStrLen, entropyThreshold, strs[|strs| - 1], log2))
  }

  /** A random-looking string among the first `n` is one among all of them. */
  lemma {:induction false} SomeLooksRandomPrefix(minStrLen: int, entropyThreshold: real, strs: seq<string>, n: nat, log2: real -> real)
    requires n <= |strs| && SomeLooksRandom(minStrLen, entropyThreshold, strs[..n], log2)
    ensures SomeLooksRandom(minStrLen, entropyThreshold, strs, log2)
    decreases |strs| - n
  {
    if n < |strs| {
      assert strs[..n + 1][..n] == strs[..n];
      SomeLooksRandomPrefix(minStrLen, entropyThreshold, strs, n + 1, log2);
    } else {
      assert strs[..n] == strs;
    }
  }

  /** The string rule fires exactly when one of the strings looks random. */
  lemma {:induction false} SomeLooksRandomIff(minStrLen: int, entropyThreshold: real, strs: seq<string>, log2: real -> real)
    ensures SomeLooksRandom(minStrLen, entropyThreshold, strs, log2) <==>
      exists t :: t in strs && LooksRandom(minStrLen, entropyThreshold, t, log2)
  {
    if strs != [] {
      var init := strs[..|strs| - 1];
      SomeLooksRandomIff(minStrLen, entropyThreshold, init, log2);
      assert strs == init + [strs[|strs| - 1]];
    }
  }

  /** A quoted string longer than `minStrLen` whose entropy exceeds the threshold. */
  predicate LooksRandom(minStrLen: int, entropyThreshold: real, t: string, log2: real -> real) {
    |t| > minStrLen && Entropy(t, log2) > entropyThreshold
  }

  /** The verdict `classify_and_save` gives one (meta, snippet) pair. */
  predicate IsFlagged(entropyThreshold: real, minStrLen: int, shortNameLen: int,
                      meta: Meta, snippet: string, log2: real -> real)
  {
    HasShortName(shortNameLen, meta) || HasRandomString(minStrLen, entropyThreshold, snippet, log2)
  }

  /** The distinct characters of `s` in the order they first occur: the key order of
      the frequency dict `shannon_entropy` builds. */
  function FirstOccurrences(s: string): (keys: seq<char>)
    ensures forall c :: c in keys <==> c in s
  {
    if s == [] then []
    else
      var keys := FirstOccurrences(s[..|s| - 1]);
      var c := s[|s| - 1];
      assert s == s[..|s| - 1] + [c];
      if c in keys then keys else keys + [c]
  }

  /** Each character is a key of the frequency dict once. */
  lemma {:induction false} FirstOccurrencesDistinct(s: string)
    ensures forall i, j :: 0 <= i < j < |FirstOccurrences(s)| ==> FirstOccurrences(s)[i] != FirstOccurrences(s)[j]
  {
    if s != [] {
      FirstOccurrencesDistinct(s[..|s| - 1]);
    }
  }

  /** `-(p0 * log2(p0)) - ... - (pn * log2(pn))`, where `pk` is the share of the
      character `keys[k]` among the characters of `s`. */
  function EntropyTerms(keys: seq<char>, s: string, log2: real -> real): real
    requires |s| > 0
  {
    if keys == [] then 0.0
    else
      var p := multiset(s)[keys[|keys| - 1]] as real / |s| as real;
      EntropyTerms(keys[..|keys| - 1], s, log2) - PLog2P(p, log2)
  }

  lemma EntropyTermsStep(keys: seq<char>, j: nat, s: string, count: nat, log2: real -> real)
    requires |s| > 0 && j < |keys| && count == multiset(s)[keys[j]]
    ensures EntropyTerms(keys[..j + 1], s, log2) ==
      EntropyTerms(keys[..j], s, log2) - PLog2P(count as real / |s| as real, log2)
  {
    assert keys[..j + 1][..j] == keys[..j];
  }

  /** The contribution `p * log2(p)` of a character with share `p`. */
  function PLog2P(p: real, log2: real -> real): real {
    p * log2(p)
  }

  /** Shannon entropy of the character distribution of `s`, in bits; 0 for "". */
  function Entropy(s: string, log2: real -> real): real {
    if |s| == 0 then 0.0 else EntropyTerms(FirstOccurrences(s), s, log2)
  }

  lemma {:induction false} RepeatedFirstOccurrences(s: string, c: char)
    requires |s| > 0 && forall k :: 0 <= k < |s| ==> s[k] == c
    ensures FirstOccurrences(s) == [c]
    ensures multiset(s)[c] == |s|
  {
    var init := s[..|s| - 1];
    assert s == init + [c];
    if |init| > 0 {
      RepeatedFirstOccurrences(init, c);
    }
  }

  /** A string made of one repeated character has entropy 0 (given log2(1) = 0), so
      it can never pass a non-negative entropy threshold. */
  lemma UniformStringHasNoEntropy(s: string, c: char, log2: real -> real)
    requires |s| > 0 && forall k :: 0 <= k < |s| ==> s[k] == c
    requires log2(1.0) == 0.0
    ensures Entropy(s, log2) == 0.0
  {
    RepeatedFirstOccurrences(s, c);
    WholeShare(|s|);
    assert [c][..0] == [];
    assert EntropyTerms([c], s, log2) == 0.0 - PLog2P(1.0, log2);
  }

  lemma WholeShare(n: nat)
    requires n > 0
    ensures n as real / n as real == 1.0
  {
  }

  /** A snippet too short to hold a quoted string longer than `minStrLen` is judged by
      the name rule alone. */
  lemma ShortSnippetJudgedByName(entropyThreshold: real, minStrLen: int, shortNameLen: int,
                                 meta: Meta, snippet: string, log2: real -> real)
    requires |snippet| <= minStrLen + 2
    ensures IsFlagged(entropyThreshold, minStrLen, shortNameLen, meta, snippet, log2) <==>
            HasShortName(shortNameLen, meta)
  {
    SomeLooksRandomIff(minStrLen, entropyThreshold, QuotedStrings(snippet), log2);
    QuotedStringsShape(snippet);
  }

  /** For a snippet made of quoted words, the string rule looks at exactly those words. */
  lemma EnquotedSnippetFlagging(minStrLen: int, entropyThreshold: real, ws: seq<string>, log2: real -> real)
    requires forall w :: w in ws ==> '"' !in w && '\n' !in w
    ensures HasRandomString(minStrLen, entropyThreshold, Enquote(ws), log2) <==>
            exists w :: w in ws && LooksRandom(minStrLen, entropyThreshold, w, log2)
  {
    QuotedStringsOfEnquote(ws);
    SomeLooksRandomIff(minStrLen, entropyThreshold, ws, log2);
  }

  class ObfuscationDetector {
    const entropyThreshold: real
    const minStrLen: int
    const shortNameLen: int

    constructor (entropyThreshold: real := DefaultEntropyThreshold, minStrLen: int := DefaultMinStrLen,
                 shortNameLen: int := DefaultShortNameLen)
      ensures this.entropyThreshold == entropyThreshold
      ensures this.minStrLen == minStrLen
      ensures this.shortNameLen == shortNameLen
    {
      this.entropyThreshold := entropyThreshold;
      this.minStrLen := minStrLen;
      this.shortNameLen := shortNameLen;
    }

    /** The first loop of `shannon_entropy`: the dict `freq` from each character of
        `s` to its number of occurrences, with the order its keys were inserted in. */
    static method CountCharacters(s: string) returns (freq: map<char, nat>, order: seq<char>)
      ensures forall c :: c in freq <==> c in s
      ensures forall c :: c in freq ==> freq[c] == multiset(s)[c]
      ensures order == FirstOccurrences(s)
    {
      freq := map[];
      order := [];
      for i := 0 to |s|
        invariant forall c :: c in freq <==> c in s[..i]
        invariant forall c :: c in freq ==> freq[c] == multiset(s[..i])[c]
        invariant order == FirstOccurrences(s[..i])
      {
        var ch := s[i];
        assert s[..i + 1] == s[..i] + [ch];
        if ch !in freq {
          order := order + [ch];
        }
        freq := freq[ch := (if ch in freq then freq[ch] else 0) + 1];
      }
      assert s[..|s|] == s;
    }

    /** Shannon entropy of `s`: counts its characters, then accumulates
        `-p * log2(p)` over the counts in the dict's key order. */
    static method ShannonEntropy(s: string, log2: real -> real) returns (entropy: real)
      ensures |s| == 0 ==> entropy == 0.0
      ensures entropy == Entropy(s, log2)
    {
      if |s| == 0 {
        return 0.0;
      }
      var freq, order := CountCharacters(s);
      assert forall c :: c in order ==> c in freq && freq[c] == multiset(s)[c];
      entropy := 0.0;
      var length := |s|;
      for j := 0 to |order|
        invariant entropy == EntropyTerms(order[..j], s, log2)
      {
        EntropyTermsStep(order, j, s, freq[order[j]], log2);
        var p := freq[order[j]] as real / length as real;
        entropy := entropy - PLog2P(p, log2);
      }
      assert order[..|order|] == order;
    }

    /** The body of the loop of `classify_and_save` for one (meta, snippet) pair:
        the name rule, then, only if it did not fire, the quoted strings of the
        snippet in order until one looks random. */
    method Classify(meta: Meta, snippet: string, log2: real -> real) returns (obf: bool)
      ensures obf == IsFlagged(entropyThreshold, minStrLen, shortNameLen, meta, snippet, log2)
    {
      var (cls, mth) := meta;
      var simpleCls := SimpleClassName(cls);
      obf := |simpleCls| <= shortNameLen || |mth| <= shortNameLen;
      if !obf {
        var strs := QuotedStrings(snippet);
        for k := 0 to |strs|
          invariant !obf
          invariant !SomeLooksRandom(minStrLen, entropyThreshold, strs[..k], log2)
        {
          var s := strs[k];
          assert strs[..k + 1][..k] == strs[..k];
          if |s| > minStrLen {
            var e := ShannonEntropy(s, log2);
            if e > entropyThreshold {
              obf := true;
              assert SomeLooksRandom(minStrLen, entropyThreshold, strs[..k + 1], log2);
              SomeLooksRandomPrefix(minStrLen, entropyThreshold, strs, k + 1, log2);
              break;
            }
          }
        }
        assert obf || strs[..|strs|] == strs;
      }
    }

    /** One 0/1 verdict per pair of `zip(metas, codeSnippets)`, in order. Writing the
        snippets and their tags to the output file is not modelled. */
    method ClassifyAndSave(codeSnippets: seq<string>, metas: seq<Meta>, log2: real -> real)
      returns (results: seq<int>)
      ensures |results| == Min(|metas|, |codeSnippets|)
      ensures forall i :: 0 <= i < |results| ==>
        results[i] == if IsFlagged(entropyThreshold, minStrLen, shortNameLen, metas[i], codeSnippets[i], log2) then 1 else 0
    {
      var n := Min(|metas|, |codeSnippets|);
      results := [];
      for i := 0 to n
        invariant results == Verdicts(entropyThreshold, minStrLen, shortNameLen, metas, codeSnippets, i, log2)
      {
        var obf := Classify(metas[i], codeSnippets[i], log2);
        results := results + [if obf then 1 else 0];
      }
      forall t | 0 <= t < n
        ensures results[t] ==
          if IsFlagged(entropyThreshold, minStrLen, shortNameLen, metas[t], codeSnippets[t], log2) then 1 else 0
      {
        VerdictAt(entropyThreshold, minStrLen, shortNameLen, metas, codeSnippets, n, t, log2);
      }
    }
  }

  /** The verdicts `classify_and_save` gives the first `n` zipped pairs, in order. */
  function Verdicts(entropyThreshold: real, minStrLen: int, shortNameLen: int,
                    metas: seq<Meta>, snippets: seq<string>, n: nat, log2: real -> real): (r: seq<int>)
    requires n <= |metas| && n <= |snippets|
    ensures |r| == n
  {
    if n == 0 then []
    else
      Verdicts(entropyThreshold, minStrLen, shortNameLen, metas, snippets, n - 1, log2) +
      [if IsFlagged(entropyThreshold, minStrLen, shortNameLen, metas[n - 1], snippets[n - 1], log2) then 1 else 0]
  }

  /** Verdict `t` is 1 exactly when pair `t` is flagged, and 0 otherwise. */
  lemma {:induction false} VerdictAt(entropyThreshold: real, minStrLen: int, shortNameLen: int,
                                     metas: seq<Meta>, snippets: seq<string>, n: nat, t: nat, log2: real -> real)
    requires t < n <= |metas| && n <= |snippets|
    ensures Verdicts(entropyThreshold, minStrLen, shortNameLen, metas, snippets, n, log2)[t] ==
      if IsFlagged(entropyThreshold, minStrLen, shortNameLen, metas[t], snippets[t], log2) then 1 else 0
  {
    if t < n - 1 {
      VerdictAt(entropyThreshold, minStrLen, shortNameLen, metas, snippets, n - 1, t, log2);
    }
  }
}
