/** The decision logic of analyzer.py. The APK and its bytecode are decoded by a
    foreign library; here a decoded method is an abstract record: its class
    descriptor, its name, whether it is external (only referenced, not defined in
    the APK), and its basic blocks of instructions, each instruction given by its
    mnemonic and its printed output. The module-level `scan_all` switch is the
    parameter `scanAll`. */
module Analyzer {
  import opened Sequences
  import opened Strings
  import opened ObfDetector

  datatype Instruction = Instruction(name: string, output: string)

  type BasicBlock = seq<Instruction>

  datatype MethodRecord = MethodRecord(className: string, name: string, isExternal: bool, blocks: seq<BasicBlock>)

  /** One entry of the `dynamic_code_loading` list. */
  datatype Finding = Finding(className: string, methodName: string, instruction: string)

  /** The `obfuscation_indicators` dict; a key may be missing. */
  datatype ObfuscationIndicators = ObfuscationIndicators(obfuscatedMethods: Option<int>, totalMethods: Option<int>)

  /** The entries of the result dict the risk score reads; each may be missing. */
  datatype Report = Report(
    dangerousPermissions: Option<seq<string>>,
    dynamicCodeLoading: Option<seq<Finding>>,
    obfuscationIndicators: Option<ObfuscationIndicators>)

  /** Class descriptor prefixes of platform and library code. */
  const FrameworkPrefixes: seq<string> :=
    ["Landroid/", "Ljava/", "Lkotlin/", "Landroidx/", "Lcom/google/", "Lkotlinx/"]

  const DangerousPermissionNames: seq<string> := [
    "SEND_SMS", "RECEIVE_SMS", "READ_SMS", "READ_CONTACTS", "WRITE_CONTACTS",
    "READ_PHONE_STATE", "RECORD_AUDIO", "ACCESS_FINE_LOCATION", "USE_CREDENTIALS"
  ]

  const DynamicRelatedCalls: seq<string> := [
    "Ldalvik/system/DexClassLoader;", "Ldalvik/system/PathClassLoader;",
    "Ljava/lang/reflect/Method;", "Ljava/lang/Class;", "forName"
  ]

  // ---------------------------------------------------------------- user code

  /** Whether the class belongs to the app rather than to the platform or a
      well-known library; with `scanAll` every class counts as user code. */
  function IsUserCode(className: string, scanAll: bool): (r: bool)
    ensures scanAll ==> r
    ensures !scanAll ==> (r <==> forall p :: p in FrameworkPrefixes ==> !StartsWith(className, p))
  {
    if scanAll then true
    else
      !(StartsWith(className, "Landroid/") ||
        StartsWith(className, "Ljava/") ||
        StartsWith(className, "Lkotlin/") ||
        StartsWith(className, "Landroidx/") ||
        StartsWith(className, "Lcom/google/") ||
        StartsWith(className, "Lkotlinx/"))
  }

  /** Inner and nested classes of framework code are framework code too: the
      decision only looks at a prefix of the descriptor. */
  lemma FrameworkClosedUnderExtension(className: string, x: string)
    requires !IsUserCode(className, false)
    ensures !IsUserCode(className + x, false)
  {
    var p :| p in FrameworkPrefixes && StartsWith(className, p);
    StartsWithExtend(className, p, x);
  }

  /** The methods the three scans look at: defined in the APK and in user code. */
  predicate Scanned(m: MethodRecord, scanAll: bool) {
    !m.isExternal && IsUserCode(m.className, scanAll)
  }

  /** All instructions of a method, block after block. */
  function Instructions(blocks: seq<BasicBlock>): seq<Instruction> {
    if blocks == [] then [] else Instructions(blocks[..|blocks| - 1]) + blocks[|blocks| - 1]
  }

  lemma InstructionsSnoc(blocks: seq<BasicBlock>, b: nat)
    requires b < |blocks|
    ensures Instructions(blocks[..b + 1]) == Instructions(blocks[..b]) + blocks[b]
  {
    assert blocks[..b + 1][..b] == blocks[..b];
  }

  // ------------------------------------------------------ dangerous permissions

  /** The permission mentions one of the dangerous permission names. */
  predicate IsDangerous(permission: string) {
    exists d :: d in DangerousPermissionNames && Contains(permission, d)
  }

  /** The requested permissions that mention a dangerous permission name, in the
      order requested and with repetitions kept. */
  function DangerousPermissions(permissions: seq<string>): (r: seq<string>)
    ensures IsSubsequence(r, permissions)
    ensures forall p :: p in r <==> p in permissions && IsDangerous(p)
    ensures forall p :: IsDangerous(p) ==> multiset(r)[p] == multiset(permissions)[p]
  {
    Filter(permissions, IsDangerous)
  }

  /** Whatever surrounds a dangerous name (a package such as `android.permission.`
      or a vendor prefix), the permission is flagged. */
  lemma DangerousInAnyContext(x: string, permission: string, y: string)
    requires IsDangerous(permission)
    ensures IsDangerous(x + permission + y)
  {
    var d :| d in DangerousPermissionNames && Contains(permission, d);
    ContainsInContext(x, permission, y, d);
  }

  // --------------------------------------------------------------- risk score

  /** The risk score: two points per dangerous permission, one per dynamic loading
      call site, one per method that may be obfuscated, capped at 10. A missing
      entry counts as empty (or 0). */
  function RiskScore(report: Report): (score: int)
    ensures var raw := 2 * |report.dangerousPermissions.GetOr([])| +
                       |report.dynamicCodeLoading.GetOr([])| +
                       report.obfuscationIndicators.GetOr(ObfuscationIndicators(None, None)).obfuscatedMethods.GetOr(0);
      score <= 10 && (score == 10 <==> raw >= 10) && (score < 10 ==> score == raw)
    ensures report.obfuscationIndicators.GetOr(ObfuscationIndicators(None, None)).obfuscatedMethods.GetOr(0) >= 0 ==>
      score >= 0
  {
    var perms := report.dangerousPermissions.GetOr([]);
    var score := |perms| * 2;
    var dyn := report.dynamicCodeLoading.GetOr([]);
    var score := score + |dyn|;
    var obf := report.obfuscationIndicators.GetOr(ObfuscationIndicators(None, None)).obfuscatedMethods.GetOr(0);
    var score := score + obf;
    Min(score, 10)
  }

  /** A result with none of the three entries, or with all of them empty, scores 0. */
  lemma EmptyReportScoresZero()
    ensures RiskScore(Report(None, None, None)) == 0
    ensures RiskScore(Report(Some([]), Some([]), Some(ObfuscationIndicators(None, None)))) == 0
    ensures RiskScore(Report(Some([]), Some([]), Some(ObfuscationIndicators(Some(0), Some(0))))) == 0
  {
  }

  /** Five dangerous permissions reach the cap whatever else was found. */
  lemma FiveDangerousPermissionsSaturate(report: Report)
    requires |report.dangerousPermissions.GetOr([])| >= 5
    requires report.obfuscationIndicators.GetOr(ObfuscationIndicators(None, None)).obfuscatedMethods.GetOr(0) >= 0
    ensures RiskScore(report) == 10
  {
  }

  /** More findings never lower the score. */
  lemma RiskScoreMonotonic(a: Report, b: Report)
    requires |a.dangerousPermissions.GetOr([])| <= |b.dangerousPermissions.GetOr([])|
    requires |a.dynamicCodeLoading.GetOr([])| <= |b.dynamicCodeLoading.GetOr([])|
    requires a.obfuscationIndicators.GetOr(ObfuscationIndicators(None, None)).obfuscatedMethods.GetOr(0) <=
             b.obfuscationIndicators.GetOr(ObfuscationIndicators(None, None)).obfuscatedMethods.GetOr(0)
    ensures RiskScore(a) <= RiskScore(b)
  {
  }

  // --------------------------------------------------------- native libraries

  /** An archive entry that is a native shared library. */
  predicate IsNativeLibrary(entry: string) {
    StartsWith(entry, "lib/") && EndsWith(entry, ".so")
  }

  /** The archive entries under `lib/` ending in `.so`, in archive order. */
  function NativeLibraries(entries: seq<string>): (r: seq<string>)
    ensures IsSubsequence(r, entries)
    ensures forall e :: e in r <==> e in entries && IsNativeLibrary(e)
    ensures forall e :: IsNativeLibrary(e) ==> multiset(r)[e] == multiset(entries)[e]
  {
    Filter(entries, IsNativeLibrary)
  }

  /** The usual layout `lib/<abi>/<name>.so` is recognised. */
  lemma NativeLibraryLayout(abi: string, name: string)
    ensures IsNativeLibrary("lib/" + abi + "/" + name + ".so")
  {
    var e := "lib/" + abi + "/" + name + ".so";
    assert e[..4] == "lib/";
    assert e[|e| - 3..] == ".so";
  }

  // ---------------------------------------------------- dynamic code loading

  /** The instruction's output mentions a class-loading or reflection API. */
  predicate IsDynamicCall(output: string) {
    exists k :: k in DynamicRelatedCalls && Contains(output, k)
  }

  /** The findings of one method, over the instructions `ins`, in order. */
  function CallFindings(m: MethodRecord, ins: seq<Instruction>): seq<Finding> {
    if ins == [] then []
    else
      var last := ins[|ins| - 1];
      CallFindings(m, ins[..|ins| - 1]) +
      (if IsDynamicCall(last.output) then [Finding(m.className, m.name, last.output)] else [])
  }

  /** The findings of all methods, method after method. */
  function DynamicFindings(ms: seq<MethodRecord>, scanAll: bool): seq<Finding> {
    if ms == [] then []
    else
      var m := ms[|ms| - 1];
      DynamicFindings(ms[..|ms| - 1], scanAll) +
      (if Scanned(m, scanAll) then CallFindings(m, Instructions(m.blocks)) else [])
  }

  lemma CallFindingsSnoc(m: MethodRecord, ins: seq<Instruction>, x: Instruction)
    ensures CallFindings(m, ins + [x]) ==
      CallFindings(m, ins) + (if IsDynamicCall(x.output) then [Finding(m.className, m.name, x.output)] else [])
  {
    assert (ins + [x])[..|ins|] == ins;
  }

  lemma {:induction false} CallFindingsAppend(m: MethodRecord, a: seq<Instruction>, b: seq<Instruction>)
    ensures CallFindings(m, a + b) == CallFindings(m, a) + CallFindings(m, b)
    decreases |b|
  {
    if b == [] {
      assert a + b == a;
    } else {
      var init := b[..|b| - 1];
      CallFindingsAppend(m, a, init);
      assert (a + b)[..|a + b| - 1] == a + init;
    }
  }

  /** A finding names a scanned method and one of its instructions that mentions a
      dynamic loading API, and every such instruction gives a finding. */
  lemma {:induction false} DynamicFindingsComplete(ms: seq<MethodRecord>, scanAll: bool, f: Finding)
    ensures f in DynamicFindings(ms, scanAll) <==>
      exists i, ins :: 0 <= i < |ms| && Scanned(ms[i], scanAll) && ins in Instructions(ms[i].blocks) &&
        IsDynamicCall(ins.output) && f == Finding(ms[i].className, ms[i].name, ins.output)
  {
    if ms != [] {
      var init := ms[..|ms| - 1];
      var m := ms[|ms| - 1];
      DynamicFindingsComplete(init, scanAll, f);
      CallFindingsComplete(m, Instructions(m.blocks), f);
      assert forall i :: 0 <= i < |init| ==> init[i] == ms[i];
    }
  }

  lemma {:induction false} CallFindingsComplete(m: MethodRecord, ins: seq<Instruction>, f: Finding)
    ensures f in CallFindings(m, ins) <==>
      exists x :: x in ins && IsDynamicCall(x.output) && f == Finding(m.className, m.name, x.output)
  {
    if ins != [] {
      var init := ins[..|ins| - 1];
      CallFindingsComplete(m, init, f);
      assert ins == init + [ins[|ins| - 1]];
    }
  }

  /** Findings follow the order of the methods: those of earlier methods first. */
  lemma {:induction false} DynamicFindingsAppend(a: seq<MethodRecord>, b: seq<MethodRecord>, scanAll: bool)
    ensures DynamicFindings(a + b, scanAll) == DynamicFindings(a, scanAll) + DynamicFindings(b, scanAll)
  {
    if b != [] {
      var init := b[..|b| - 1];
      DynamicFindingsAppend(a, init, scanAll);
      assert (a + b)[..|a + b| - 1] == a + init;
    } else {
      assert a + b == a;
    }
  }

  /** The two inner loops of `detect_dynamic_loading` for one scanned method: a
      finding for each instruction, block after block, whose output mentions a
      dynamic loading API. */
  method MethodDynamicFindings(m: MethodRecord) returns (findings: seq<Finding>)
    ensures findings == CallFindings(m, Instructions(m.blocks))
  {
    findings := [];
    for b := 0 to |m.blocks|
      invariant findings == CallFindings(m, Instructions(m.blocks[..b]))
    {
      var bb := m.blocks[b];
      for k := 0 to |bb|
        invariant findings == CallFindings(m, Instructions(m.blocks[..b])) + CallFindings(m, bb[..k])
      {
        var out := bb[k].output;
        CallFindingsSnoc(m, bb[..k], bb[k]);
        assert bb[..k + 1] == bb[..k] + [bb[k]];
        if IsDynamicCall(out) {
          findings := findings + [Finding(m.className, m.name, out)];
        }
      }
      assert bb[..|bb|] == bb;
      InstructionsSnoc(m.blocks, b);
      CallFindingsAppend(m, Instructions(m.blocks[..b]), bb);
    }
    assert m.blocks[..|m.blocks|] == m.blocks;
  }

  /** `detect_dynamic_loading`: one finding per instruction of a scanned method whose
      output mentions one of the dynamic loading APIs, in method, block and
      instruction order. */
  method DetectDynamicLoading(methods: seq<MethodRecord>, scanAll: bool) returns (findings: seq<Finding>)
    ensures findings == DynamicFindings(methods, scanAll)
  {
    findings := [];
    for i := 0 to |methods|
      invariant findings == DynamicFindings(methods[..i], scanAll)
    {
      var m := methods[i];
      assert methods[..i + 1][..i] == methods[..i];
      if m.isExternal {
        continue;
      }
      if !IsUserCode(m.className, scanAll) {
        continue;
      }
      var own := MethodDynamicFindings(m);
      findings := findings + own;
    }
    assert methods[..|methods|] == methods;
  }

  // ------------------------------------------------------ interesting strings

  /** The string one instruction contributes: for a `const-string` instruction whose
      output holds a quoted string, the first such string, if it is interesting. */
  function ConstString(ins: Instruction, interesting: string -> bool): (r: Option<string>)
    ensures r.Some? <==> ins.name == "const-string" && FirstQuoted(ins.output).Some? && interesting(FirstQuoted(ins.output).value)
  {
    if ins.name != "const-string" then None
    else
      match FirstQuoted(ins.output)
      case None => None
      case Some(s) => if interesting(s) then Some(s) else None
  }

  function ConstStringOf(interesting: string -> bool): Instruction -> Option<string> {
    ins => ConstString(ins, interesting)
  }

  /** The strings the instructions `ins` contribute, given what each one contributes. */
  function Contributions(ins: seq<Instruction>, f: Instruction -> Option<string>): set<string> {
    if ins == [] then {}
    else
      var q := f(ins[|ins| - 1]);
      Contributions(ins[..|ins| - 1], f) + (if q.Some? then {q.value} else {})
  }

  /** The strings the instructions of the scanned methods contribute. */
  function MethodContributions(ms: seq<MethodRecord>, scanAll: bool, f: Instruction -> Option<string>): set<string> {
    if ms == [] then {}
    else
      var m := ms[|ms| - 1];
      MethodContributions(ms[..|ms| - 1], scanAll, f) +
      (if Scanned(m, scanAll) then Contributions(Instructions(m.blocks), f) else {})
  }

  /** The `matches` of `extract_interesting_strings`. */
  function InterestingStrings(ms: seq<MethodRecord>, scanAll: bool, interesting: string -> bool): set<string> {
    MethodContributions(ms, scanAll, ConstStringOf(interesting))
  }

  lemma {:induction false} ContributionsComplete(ins: seq<Instruction>, f: Instruction -> Option<string>, s: string)
    ensures s in Contributions(ins, f) <==> exists x :: x in ins && f(x) == Some(s)
  {
    if ins != [] {
      var init := ins[..|ins| - 1];
      ContributionsComplete(init, f, s);
      assert ins == init + [ins[|ins| - 1]];
    }
  }

  lemma {:induction false} MethodContributionsComplete(ms: seq<MethodRecord>, scanAll: bool,
                                                       f: Instruction -> Option<string>, s: string)
    ensures s in MethodContributions(ms, scanAll, f) <==>
      exists i, x :: 0 <= i < |ms| && Scanned(ms[i], scanAll) && x in Instructions(ms[i].blocks) && f(x) == Some(s)
  {
    if ms != [] {
      var init := ms[..|ms| - 1];
      var m := ms[|ms| - 1];
      MethodContributionsComplete(init, scanAll, f, s);
      ContributionsComplete(Instructions(m.blocks), f, s);
      assert forall i :: 0 <= i < |init| ==> init[i] == ms[i];
    }
  }

  /** A string is collected exactly when it is the first quoted string of a
      `const-string` instruction of a scanned method and it is interesting. */
  lemma InterestingStringsComplete(ms: seq<MethodRecord>, scanAll: bool, interesting: string -> bool, s: string)
    ensures s in InterestingStrings(ms, scanAll, interesting) <==>
      exists i, x :: 0 <= i < |ms| && Scanned(ms[i], scanAll) && x in Instructions(ms[i].blocks) &&
        x.name == "const-string" && FirstQuoted(x.output) == Some(s) && interesting(s)
  {
    var f := ConstStringOf(interesting);
    MethodContributionsComplete(ms, scanAll, f, s);
    forall x ensures f(x) == Some(s) <==>
      x.name == "const-string" && FirstQuoted(x.output) == Some(s) && interesting(s)
    {
      assert f(x) == ConstString(x, interesting);
    }
  }

  lemma ContributionsSnoc(ins: seq<Instruction>, x: Instruction, f: Instruction -> Option<string>)
    ensures Contributions(ins + [x], f) == Contributions(ins, f) + (if f(x).Some? then {f(x).value} else {})
  {
    assert (ins + [x])[..|ins|] == ins;
  }

  lemma {:induction false} ContributionsAppend(a: seq<Instruction>, b: seq<Instruction>, f: Instruction -> Option<string>)
    ensures Contributions(a + b, f) == Contributions(a, f) + Contributions(b, f)
    decreases |b|
  {
    if b == [] {
      assert a + b == a;
    } else {
      var init := b[..|b| - 1];
      ContributionsAppend(a, init, f);
      assert (a + b)[..|a + b| - 1] == a + init;
    }
  }

  /** The body of the innermost loop of `extract_interesting_strings`: the string
      one instruction adds to `matches`, if any. */
  method ConstStringMatch(ins: Instruction, interesting: string -> bool) returns (r: Option<string>)
    ensures r == ConstStringOf(interesting)(ins)
  {
    r := None;
    if ins.name == "const-string" {
      var found := FirstQuoted(ins.output);
      if found.Some? {
        var s := found.value;
        if interesting(s) {
          r := Some(s);
        }
      }
    }
  }

  /** The two inner loops of `extract_interesting_strings` for one scanned method. */
  method MethodInteresting(m: MethodRecord, interesting: string -> bool) returns (matches: set<string>)
    ensures matches == Contributions(Instructions(m.blocks), ConstStringOf(interesting))
  {
    matches := {};
    for b := 0 to |m.blocks|
      invariant matches == Contributions(Instructions(m.blocks[..b]), ConstStringOf(interesting))
    {
      var bb := m.blocks[b];
      for k := 0 to |bb|
        invariant matches == Contributions(Instructions(m.blocks[..b]), ConstStringOf(interesting)) +
                             Contributions(bb[..k], ConstStringOf(interesting))
      {
        var ins := bb[k];
        ContributionsSnoc(bb[..k], ins, ConstStringOf(interesting));
        assert bb[..k + 1] == bb[..k] + [ins];
        var found := ConstStringMatch(ins, interesting);
        if found.Some? {
          matches := matches + {found.value};
        }
      }
      assert bb[..|bb|] == bb;
      InstructionsSnoc(m.blocks, b);
      ContributionsAppend(Instructions(m.blocks[..b]), bb, ConstStringOf(interesting));
    }
    assert m.blocks[..|m.blocks|] == m.blocks;
  }

  /** The `matches` set of `extract_interesting_strings`, built by its loops. */
  method CollectInteresting(methods: seq<MethodRecord>, scanAll: bool, interesting: string -> bool)
    returns (matches: set<string>)
    ensures matches == InterestingStrings(methods, scanAll, interesting)
  {
    matches := {};
    for i := 0 to |methods|
      invariant matches == InterestingStrings(methods[..i], scanAll, interesting)
    {
      var m := methods[i];
      assert methods[..i + 1][..i] == methods[..i];
      if m.isExternal {
        continue;
      }
      if !IsUserCode(m.className, scanAll) {
        continue;
      }
      var own := MethodInteresting(m, interesting);
      matches := matches + own;
    }
    assert methods[..|methods|] == methods;
  }

  /** `list(matches)`: the elements of a set, each once, in some order. */
  method ListOfSet(matches: set<string>) returns (r: seq<string>)
    ensures forall s :: s in r <==> s in matches
    ensures forall i, j :: 0 <= i < j < |r| ==> r[i] != r[j]
    ensures |r| == |matches|
  {
    r := [];
    var rest := matches;
    while rest != {}
      invariant rest <= matches
      invariant forall s :: s in r <==> s in matches && s !in rest
      invariant forall i, j :: 0 <= i < j < |r| ==> r[i] != r[j]
      invariant |r| + |rest| == |matches|
      decreases |rest|
    {
      var s :| s in rest;
      r := r + [s];
      rest := rest - {s};
    }
  }

  /** `extract_interesting_strings`: the interesting strings of all scanned methods,
      each once, in no particular order. The regular expression that decides what
      is interesting is the parameter `interesting`. */
  method ExtractInterestingStrings(methods: seq<MethodRecord>, scanAll: bool, interesting: string -> bool)
    returns (r: seq<string>)
    ensures forall s :: s in r <==> s in InterestingStrings(methods, scanAll, interesting)
    ensures forall i, j :: 0 <= i < j < |r| ==> r[i] != r[j]
  {
    var matches := CollectInteresting(methods, scanAll, interesting);
    r := ListOfSet(matches);
  }

  // -------------------------------------------------------------- obfuscation

  /** The printed outputs of a method's instructions, one per line. */
  function Outputs(ins: seq<Instruction>): (lines: seq<string>)
    ensures |lines| == |ins| && forall k :: 0 <= k < |ins| ==> lines[k] == ins[k].output
  {
    seq(|ins|, k requires 0 <= k < |ins| => ins[k].output)
  }

  /** The code snippet of a method: its instruction outputs joined by newlines,
      stripped of surrounding whitespace. */
  function Snippet(m: MethodRecord): string {
    Strip(Join("\n", Outputs(Instructions(m.blocks))))
  }

  /** A method's snippet is empty exactly when all its instructions print as
      whitespace only (or it has none). */
  lemma SnippetEmptyIff(m: MethodRecord)
    ensures Snippet(m) == "" <==>
      forall ins :: ins in Instructions(m.blocks) ==> AllSpace(ins.output)
  {
    var ins := Instructions(m.blocks);
    var lines := Outputs(ins);
    assert AllSpace("\n") by { assert "\n"[0] == '\n'; }
    JoinAllSpace("\n", lines);
    StripShape(Join("\n", lines));
    if forall x :: x in ins ==> AllSpace(x.output) {
      assert forall k :: 0 <= k < |lines| ==> AllSpace(lines[k]) by {
        forall k | 0 <= k < |lines| ensures AllSpace(lines[k]) {
          assert ins[k] in ins;
        }
      }
    }
  }

  /** The methods `detect_obfuscation` hands to the detector, in order: the scanned
      methods with a non-empty snippet. */
  function Collected(ms: seq<MethodRecord>, scanAll: bool): seq<MethodRecord> {
    if ms == [] then []
    else
      var m := ms[|ms| - 1];
      Collected(ms[..|ms| - 1], scanAll) + (if Scanned(m, scanAll) && Snippet(m) != "" then [m] else [])
  }

  /** Collecting one more method appends it exactly when it is scanned and its
      snippet is non-empty. */
  lemma CollectedSnoc(ms: seq<MethodRecord>, i: nat, scanAll: bool)
    requires i < |ms|
    ensures Collected(ms[..i + 1], scanAll) ==
      Collected(ms[..i], scanAll) + (if Scanned(ms[i], scanAll) && Snippet(ms[i]) != "" then [ms[i]] else [])
  {
    assert ms[..i + 1][..i] == ms[..i];
  }

  /** The collected methods are, in order, the scanned methods with a non-empty
      snippet, each of them as often as `ms` holds it: the list comprehension that
      keeps exactly those methods. */
  lemma {:induction false} CollectedIsFilter(ms: seq<MethodRecord>, scanAll: bool)
    ensures IsSubsequence(Collected(ms, scanAll), ms)
    ensures forall m :: m in Collected(ms, scanAll) <==> m in ms && Scanned(m, scanAll) && Snippet(m) != ""
    ensures forall m :: Scanned(m, scanAll) && Snippet(m) != "" ==>
      multiset(Collected(ms, scanAll))[m] == multiset(ms)[m]
    ensures Collected(ms, scanAll) == Filter(ms, m => Scanned(m, scanAll) && Snippet(m) != "")
  {
    CollectedOrder(ms, scanAll);
    CollectedMultiset(ms, scanAll);
    FilterUnique(Collected(ms, scanAll), ms, m => Scanned(m, scanAll) && Snippet(m) != "");
  }

  lemma {:induction false} CollectedOrder(ms: seq<MethodRecord>, scanAll: bool)
    ensures IsSubsequence(Collected(ms, scanAll), ms)
    ensures forall m :: m in Collected(ms, scanAll) <==> m in ms && Scanned(m, scanAll) && Snippet(m) != ""
  {
    if ms != [] {
      var init := ms[..|ms| - 1];
      var m := ms[|ms| - 1];
      CollectedOrder(init, scanAll);
      assert ms == init + [m];
      SubsequenceSnoc(Collected(init, scanAll), init, m, Scanned(m, scanAll) && Snippet(m) != "");
    }
  }

  lemma {:induction false} CollectedMultiset(ms: seq<MethodRecord>, scanAll: bool)
    ensures forall m :: Scanned(m, scanAll) && Snippet(m) != "" ==>
      multiset(Collected(ms, scanAll))[m] == multiset(ms)[m]
  {
    if ms != [] {
      var init := ms[..|ms| - 1];
      var last := ms[|ms| - 1];
      var kept := Collected(init, scanAll) + (if Scanned(last, scanAll) && Snippet(last) != "" then [last] else []);
      CollectedMultiset(init, scanAll);
      assert ms == init + [last];
      assert Collected(ms, scanAll) == kept;
      forall m | Scanned(m, scanAll) && Snippet(m) != ""
        ensures multiset(kept)[m] == multiset(ms)[m]
      {
        MultisetSnoc(Collected(init, scanAll), init, last, Scanned(last, scanAll) && Snippet(last) != "", m);
      }
    }
  }

  lemma MultisetSnoc<T>(r: seq<T>, s: seq<T>, x: T, keep: bool, y: T)
    requires multiset(r)[y] == multiset(s)[y]
    requires y == x ==> keep
    ensures multiset(r + (if keep then [x] else []))[y] == multiset(s + [x])[y]
  {
  }

  lemma {:induction false} SubsequenceSnoc<T>(r: seq<T>, s: seq<T>, x: T, keep: bool)
    requires IsSubsequence(r, s)
    ensures IsSubsequence(r + (if keep then [x] else []), s + [x])
    decreases |s|
  {
    var r' := r + (if keep then [x] else []);
    if s == [] {
      assert r == [];
      assert r' == [] || (r'[0] == x && r'[1..] == []);
    } else {
      assert (s + [x])[1..] == s[1..] + [x];
      if r == [] {
        SubsequenceSnoc(r, s[1..], x, keep);
        assert IsSubsequence(r', (s + [x])[1..]);
      } else if r[0] == s[0] && IsSubsequence(r[1..], s[1..]) {
        SubsequenceSnoc(r[1..], s[1..], x, keep);
        assert r'[1..] == r[1..] + (if keep then [x] else []);
      } else {
        SubsequenceSnoc(r, s[1..], x, keep);
      }
    }
  }

  /** The first loop of `detect_obfuscation`: snippets and their `(class, method)`
      metas, appended in lockstep for each scanned method with a non-empty snippet. */
  method CollectSnippets(methods: seq<MethodRecord>, scanAll: bool) returns (snippets: seq<string>, metas: seq<Meta>)
    ensures |snippets| == |metas| == |Collected(methods, scanAll)|
    ensures forall k :: 0 <= k < |metas| ==>
      var m := Collected(methods, scanAll)[k];
      metas[k] == (m.className, m.name) && snippets[k] == Snippet(m) && snippets[k] != ""
  {
    snippets := [];
    metas := [];
    for i := 0 to |methods|
      invariant |snippets| == |metas| == |Collected(methods[..i], scanAll)|
      invariant forall k :: 0 <= k < |metas| ==>
        var m := Collected(methods[..i], scanAll)[k];
        metas[k] == (m.className, m.name) && snippets[k] == Snippet(m) && snippets[k] != ""
    {
      var m := methods[i];
      CollectedSnoc(methods, i, scanAll);
      if m.isExternal || !IsUserCode(m.className, scanAll) {
        continue;
      }
      var insLines := Outputs(Instructions(m.blocks));
      var snippet := Strip(Join("\n", insLines));
      if snippet != "" {
        metas := metas + [(m.className, m.name)];
        snippets := snippets + [snippet];
      }
    }
    assert methods[..|methods|] == methods;
  }

  /** The number of collected methods the detector (with its default settings)
      flags. */
  function FlaggedCount(c: seq<MethodRecord>, log2: real -> real): (n: nat)
    ensures n <= |c|
  {
    if c == [] then 0
    else
      var m := c[|c| - 1];
      FlaggedCount(c[..|c| - 1], log2) +
      (if IsFlagged(DefaultEntropyThreshold, DefaultMinStrLen, DefaultShortNameLen, (m.className, m.name), Snippet(m), log2)
       then 1 else 0)
  }

  /** `sum(1 for r in results if r)`. */
  function CountNonZero(results: seq<int>): nat {
    if results == [] then 0
    else CountNonZero(results[..|results| - 1]) + (if results[|results| - 1] != 0 then 1 else 0)
  }

  lemma {:induction false} CountNonZeroOfVerdicts(results: seq<int>, c: seq<MethodRecord>, log2: real -> real)
    requires |results| == |c|
    requires forall k :: 0 <= k < |c| ==>
      results[k] == if IsFlagged(DefaultEntropyThreshold, DefaultMinStrLen, DefaultShortNameLen,
                                 (c[k].className, c[k].name), Snippet(c[k]), log2) then 1 else 0
    ensures CountNonZero(results) == FlaggedCount(c, log2)
  {
    if c != [] {
      CountNonZeroOfVerdicts(results[..|results| - 1], c[..|c| - 1], log2);
    }
  }

  /** `detect_obfuscation`: the number of collected methods that the default
      detector flags, out of the number collected. */
  method DetectObfuscation(methods: seq<MethodRecord>, scanAll: bool, log2: real -> real)
    returns (indicators: ObfuscationIndicators)
    ensures indicators.totalMethods == Some(|Collected(methods, scanAll)|)
    ensures indicators.obfuscatedMethods == Some(FlaggedCount(Collected(methods, scanAll), log2))
    ensures 0 <= indicators.obfuscatedMethods.value <= indicators.totalMethods.value
  {
    var snippets, metas := CollectSnippets(methods, scanAll);
    var detector := new ObfuscationDetector();
    var results := detector.ClassifyAndSave(snippets, metas, log2);
    CountNonZeroOfVerdicts(results, Collected(methods, scanAll), log2);
    indicators := ObfuscationIndicators(Some(CountNonZero(results)), Some(|results|));
  }
}
