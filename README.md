# ApkAnalyzer decision logic in Dafny

ApkAnalyzer is a static analyser for Android packages. It decodes an APK with
androguard and writes a report. The report lists the requested permissions that are
dangerous, the native libraries in the archive, the call sites that load code
dynamically, string constants that look like URLs, IP addresses or keys, and how
many methods may be obfuscated. It ends with a risk score capped at 10.

This project models the decision logic on top of the decoding:

- `Sequences` (sequences.dfy): Python's filtering list comprehension and the
  order-preserving sublist relation.
- `Strings` (strings.dfy): the Python string operations the analyser uses.
  These are `startswith`, `endswith`, substring `in`, `str.strip()`, `"\n".join`,
  `split('/')[-1]`, and the regular expression `"(.*?)"` as `re.findall` and
  `re.search` apply it.
- `ObfDetector` (obf_detector.dfy): the `ObfuscationDetector` class, its defaults,
  Shannon entropy, and the per-method verdicts of `classify_and_save`.
- `Analyzer` (analyzer.dfy): the user-code filter, the dangerous-permission
  filter, the native-library name filter, the risk score, and the method scans of
  `detect_dynamic_loading`, `extract_interesting_strings` and `detect_obfuscation`.

A decoded method is an abstract `MethodRecord`. It holds the class descriptor, the
method name, the is-external flag and the basic blocks. Each block is a sequence of
`Instruction(name, output)`. The module global `scan_all` is the parameter `scanAll`.
`math.log2` is the parameter `log2`, and floats are reals. The regular expression
that decides which string constants are interesting is the parameter predicate
`interesting`.

Every method is proved against a specification function. The loops of
`detect_dynamic_loading` are specified by `DynamicFindings`, those of
`extract_interesting_strings` by `InterestingStrings`, and the collection loop of
`detect_obfuscation` by `Collected`. The character count and the sum in
`shannon_entropy` are specified by `Entropy`, and the verdicts of
`classify_and_save` by `IsFlagged`. Lemmas then characterise each of these
functions directly.

## Model

| member | source | states |
|---|---|---|
| Analyzer.IsUserCode | analyzer.py:50-58 | with `scan_all` every class is user code; otherwise a class is user code exactly when its descriptor starts with none of the six framework prefixes |
| Analyzer.FrameworkClosedUnderExtension | analyzer.py:53-58 | a framework class stays framework whatever is appended to its descriptor (nested and inner classes) |
| Analyzer.DangerousPermissions | analyzer.py:136-150 | the result is an order-preserving sublist of the permissions; a permission is in it exactly when it contains one of the nine dangerous names; each kept permission appears as often as in the input |
| Analyzer.DangerousInAnyContext | analyzer.py:149 | a permission containing a dangerous name is flagged whatever prefix or suffix surrounds it |
| Analyzer.RiskScore | analyzer.py:153-161 | the score is min(2·permissions + dynamic findings + obfuscated methods, 10): at most 10, equal to 10 exactly when the raw sum reaches 10, the raw sum below that, and non-negative when the obfuscated count is |
| Analyzer.EmptyReportScoresZero | analyzer.py:154-158 | missing entries count as empty lists or 0, so a report without entries or with empty ones scores 0 |
| Analyzer.FiveDangerousPermissionsSaturate | analyzer.py:155-161 | five dangerous permissions reach the cap of 10 whatever the dynamic findings, provided the obfuscated count is not negative (it never is, being a count) |
| Analyzer.RiskScoreMonotonic | analyzer.py:153-161 | more permissions, findings or obfuscated methods never lower the score |
| Analyzer.NativeLibraries | analyzer.py:84-86 | the result is an order-preserving sublist of the archive entries holding exactly the entries that start with `lib/` and end with `.so`, with their multiplicities |
| Analyzer.NativeLibraryLayout | analyzer.py:86 | an entry `lib/<abi>/<name>.so` is recognised as a native library |
| Analyzer.DetectDynamicLoading | analyzer.py:89-109 | the nested loops over methods, blocks and instructions produce exactly `DynamicFindings`, the findings in method, block and instruction order |
| Analyzer.MethodDynamicFindings | analyzer.py:104-108 | the block and instruction loops for one method produce exactly that method's findings, in block and instruction order |
| Analyzer.DynamicFindingsComplete | analyzer.py:98-108 | a finding is reported exactly when it names a non-external user-code method and one of its instructions whose output mentions one of the five dynamic-loading keywords |
| Analyzer.CallFindingsComplete | analyzer.py:104-108 | within one method, a finding is produced exactly for the instructions whose output mentions a keyword |
| Analyzer.CallFindingsAppend | analyzer.py:104-108 | the findings of two runs of instructions are those of the first run followed by those of the second |
| Analyzer.DynamicFindingsAppend | analyzer.py:98-109 | the findings of a list of methods are the findings of its first part followed by those of the rest |
| Analyzer.ConstString | analyzer.py:73-79 | an instruction contributes a string exactly when it is a `const-string`, its output holds a quoted string, and that first quoted string is interesting |
| Analyzer.ConstStringMatch | analyzer.py:73-79 | the innermost loop body adds exactly the string `ConstString` describes |
| Analyzer.CollectInteresting | analyzer.py:63-79 | the nested loops build exactly the set `InterestingStrings` |
| Analyzer.MethodInteresting | analyzer.py:71-79 | the block and instruction loops for one method collect exactly the strings its instructions contribute |
| Analyzer.InterestingStringsComplete | analyzer.py:65-79 | a string is collected exactly when it is the first quoted string of a `const-string` instruction of a non-external user-code method and it is interesting |
| Analyzer.MethodContributionsComplete | analyzer.py:65-72 | the scan over methods collects exactly the contributions of instructions of non-external user-code methods |
| Analyzer.ContributionsComplete | analyzer.py:71-72 | within one method, the collected strings are exactly the contributions of its instructions |
| Analyzer.ContributionsAppend | analyzer.py:71-72 | the strings collected from two runs of instructions are the union of those collected from each |
| Analyzer.ListOfSet | analyzer.py:81 | `list(matches)` holds every element of the set exactly once |
| Analyzer.ExtractInterestingStrings | analyzer.py:61-81 | the returned list holds exactly the interesting strings of the scanned methods, without duplicates |
| Analyzer.Outputs | analyzer.py:120-121 | one line per instruction, each the instruction's output, in order |
| Analyzer.SnippetEmptyIff | analyzer.py:120-123 | a method's stripped snippet is empty exactly when every instruction prints as whitespace only |
| Analyzer.CollectedIsFilter | analyzer.py:116-125 | the collected methods are the list comprehension keeping the non-external user-code methods with a non-empty snippet: in order, exactly those methods, each as often as the input holds it, so equal records are all counted in `total_methods` |
| Analyzer.CollectSnippets | analyzer.py:113-125 | `snippets` and `metas` have equal length, equal to the number of collected methods, and entry k of each is the non-empty snippet and the `(class, method)` pair of the k-th collected method |
| Analyzer.FlaggedCount | analyzer.py:131 | the number of flagged methods is at most the number of methods |
| Analyzer.CountNonZeroOfVerdicts | analyzer.py:131 | summing 0/1 verdicts counts the flagged methods |
| Analyzer.DetectObfuscation | analyzer.py:112-133 | `total_methods` is the number of collected methods and `obfuscated_methods` the number of them the default detector flags, hence at most `total_methods` |
| ObfDetector.SimpleClassNameShape | obf_detector.py:29 | for a descriptor `L…;` the result is the slash-free tail of the text between `L` and `;`, preceded there by `/` or the whole of it; any other name is returned unchanged |
| ObfDetector.SimpleClassNameInPackage | obf_detector.py:29 | the simple name of `L<package>/<Name>;` is `Name` |
| ObfDetector.SimpleClassNameNoPackage | obf_detector.py:29 | the simple name of `L<Name>;` is `Name` |
| ObfDetector.FirstOccurrences | obf_detector.py:14-16 | the keys of the frequency dict, in insertion order: exactly the characters of the string |
| ObfDetector.FirstOccurrencesDistinct | obf_detector.py:14-16 | each character is a key once |
| ObfDetector.EntropyTermsStep | obf_detector.py:19-21 | each loop step subtracts p·log2(p) for the next key's relative frequency |
| ObfDetector.RepeatedFirstOccurrences | obf_detector.py:14-16 | a string of one repeated character has that character as its only key, counted once per position |
| ObfDetector.UniformStringHasNoEntropy | obf_detector.py:11-22 | a string of one repeated character has entropy 0 when log2(1) = 0 |
| ObfDetector.ShortSnippetJudgedByName | obf_detector.py:30-39 | a snippet too short to hold a quoted string longer than `min_str_len` is flagged exactly when the name rule flags it |
| ObfDetector.EnquotedSnippetFlagging | obf_detector.py:35-38 | for a snippet made of quoted words, the entropy rule fires exactly when one of those words is longer than `min_str_len` and has entropy above the threshold |
| ObfDetector.SomeLooksRandomIff | obf_detector.py:36-38 | the string rule fires exactly when some extracted string is longer than `min_str_len` and has entropy above the threshold |
| ObfDetector.SomeLooksRandomPrefix | obf_detector.py:36-39 | a random-looking string found before the `break` makes the rule fire for the whole list |
| ObfDetector.Verdicts | obf_detector.py:27-45 | one verdict per pair of the first `n` zipped pairs |
| ObfDetector.VerdictAt | obf_detector.py:30-45 | verdict t is 1 exactly when pair t is flagged, and 0 otherwise |
| ObfDetector.ObfuscationDetector.constructor | obf_detector.py:5-8 | the thresholds default to 4.5, 30 and 2 and are stored as given |
| ObfDetector.ObfuscationDetector.CountCharacters | obf_detector.py:14-16 | the frequency dict has exactly the characters of the string as keys, each mapped to its number of occurrences, with keys in first-occurrence order |
| ObfDetector.ObfuscationDetector.ShannonEntropy | obf_detector.py:11-22 | the empty string has entropy 0; otherwise the loops compute `Entropy`, minus the sum of p·log2(p) over the character frequencies |
| ObfDetector.ObfuscationDetector.Classify | obf_detector.py:28-39 | the verdict for one pair is the name rule, or else whether some quoted string is longer than `min_str_len` with entropy above the threshold |
| ObfDetector.ObfuscationDetector.ClassifyAndSave | obf_detector.py:24-48 | one verdict per zipped pair, so min(|metas|, |snippets|) of them, in input order, each 1 when the pair is flagged and 0 otherwise |
| Strings.ContainsInContext | analyzer.py:149 | an occurrence of a substring survives surrounding text |
| Strings.ContainsAt | analyzer.py:107 | an occurrence at a position is an occurrence |
| Strings.ContainsWitness | analyzer.py:107 | every occurrence has a position |
| Strings.StripShape | analyzer.py:122 | the result is the piece of the input left between leading and trailing whitespace; it is empty exactly when the input is all whitespace, and otherwise starts and ends with non-whitespace |
| Strings.JoinAllSpace | analyzer.py:122 | joining lines with a whitespace separator gives all whitespace exactly when every line is all whitespace |
| Strings.AfterLastSlash | obf_detector.py:29 | `split('/')[-1]` is the suffix without `/`, preceded by `/` unless it is the whole string |
| Strings.ClosingQuote | obf_detector.py:35 | the closing quote is the first `"` after the opening one, and none is found when a newline comes first |
| Strings.QuotedStringsShape | obf_detector.py:35 | every extracted string occurs in the snippet between an opening and a closing `"` at a definite position, holds no `"` and no newline, and is at least two characters shorter than the snippet |
| Strings.QuotedStringsOfEnquote | obf_detector.py:35 | extracting from `"w0""w1"…` gives back the words when none holds a quote or newline |
| Strings.FirstQuoted | analyzer.py:75-77 | `re.search(...).group(1)` is the first string `re.findall` would give, and is absent exactly when there is none |
| Sequences.Filter | analyzer.py:149 | a list comprehension keeps an order-preserving sublist of kept elements, each kept value as often as in the input |
| Sequences.FilterUnique | analyzer.py:149 | those three properties determine the comprehension's result |

## Left out

- The androguard calls (`AnalyzeAPK`, `get_methods`, `get_basic_blocks`, `get_instructions`, `get_output`, `get_name`, the manifest accessors) are a foreign library. Their results are the abstract inputs `MethodRecord`, `Instruction`, the permission list and the archive entry list.
- `analyze_apk` only assembles the accessor results and the detectors' outputs into a dict; the model has the detectors and `RiskScore` over a `Report` with the three entries the score reads.
- Opening the archive with `zipfile`, writing `snippets.txt` and the output file, `yaml.dump` and every `print` are I/O and are not modelled.
- `main`, its argument parsing, `print_help` and `set_log` are command-line handling that sets module globals; `scan_all` is a parameter instead.
- obf_ml_detector.py is not part of this model: it wraps a foreign machine-learning classifier and torch.
- ObfDetector.ObfuscationDetector.ShannonEntropy: `math.log2` is a parameter and floats are reals, so rounding is not modelled.
- ObfDetector.ObfuscationDetector.ClassifyAndSave: the writes to the output file and the final message are left out; only the verdict list is modelled.
- Analyzer.ExtractInterestingStrings: the order of `list(matches)` depends on Python's set iteration order, which is not modelled; the contract fixes the elements and their uniqueness only.
- Analyzer.ConstString: the regular expression `pattern` (URL, dotted IPv4, API key or token, case-insensitive) is the parameter predicate `interesting`; its language is not modelled.
