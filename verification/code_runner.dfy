/**
 * The safety gate of the TechAssist `run_python_code` tool: a scan of the code
 * for forbidden names, where `open(` is tolerated unless a write or append
 * mode literal appears, and the timeout cap applied before anything runs.
 */
module CodeRunner {
  import opened Text

  /** The forbidden substrings, in the order they are checked. */
  const ForbiddenPatterns: seq<string> := [
    "os.system", "os.popen", "os.exec", "os.spawn", "os.remove", "os.unlink", "os.rmdir",
    "shutil.rmtree",
    "subprocess", "Popen",
    "exec(", "eval(", "compile(", "__import__",
    "open(",
    "socket", "urllib", "requests", "httpx"
  ]

  /** The largest timeout, in seconds, a run may ask for. */
  const MaxTimeout: int := 10

  const WriteRefusal: string := "安全限制：不允許寫入檔案"

  function Refusal(pattern: string): string {
    "安全限制：不允許使用 " + pattern
  }

  /** A write or append mode literal, looked for case-sensitively in the code as given. */
  predicate WritesFile(code: string) {
    Contains(code, "'w'") || Contains(code, "\"w\"") || Contains(code, "'a'") || Contains(code, "\"a\"")
  }

  /** Whether `pattern` makes the scan stop on `code`. */
  predicate Rejects(code: string, pattern: string) {
    Contains(Lower(code), Lower(pattern)) && (pattern != "open(" || WritesFile(code))
  }

  /** The message for a scan that stopped at `pattern`. */
  function RefusalFor(pattern: string): string {
    if pattern == "open(" then WriteRefusal else Refusal(pattern)
  }

  /** The scan over `patterns`, in order, stopping at the first one that rejects. */
  function Scan(code: string, patterns: seq<string>): (r: (bool, string))
    decreases |patterns|
  {
    if patterns == [] then (true, "OK")
    else
      var pattern := patterns[0];
      if Contains(Lower(code), Lower(pattern)) then
        if pattern == "open(" then
          if WritesFile(code) then (false, WriteRefusal) else Scan(code, patterns[1..])
        else (false, Refusal(pattern))
      else Scan(code, patterns[1..])
  }

  /** `check_code_safety(code)`. */
  function CheckCodeSafety(code: string): (bool, string) {
    Scan(code, ForbiddenPatterns)
  }

  /**
   * The scan accepts exactly when no pattern rejects, and then answers "OK";
   * otherwise it names the first rejecting pattern.
   */
  lemma {:induction false} ScanFirstRejection(code: string, patterns: seq<string>)
    ensures Scan(code, patterns).0 <==> forall k :: 0 <= k < |patterns| ==> !Rejects(code, patterns[k])
    ensures Scan(code, patterns).0 ==> Scan(code, patterns).1 == "OK"
    ensures !Scan(code, patterns).0 ==>
      exists k :: 0 <= k < |patterns| && Rejects(code, patterns[k])
        && (forall j :: 0 <= j < k ==> !Rejects(code, patterns[j]))
        && Scan(code, patterns).1 == RefusalFor(patterns[k])
    decreases |patterns|
  {
    if patterns != [] {
      var rest := patterns[1..];
      ScanFirstRejection(code, rest);
      if !Rejects(code, patterns[0]) {
        assert Scan(code, patterns) == Scan(code, rest);
        if !Scan(code, rest).0 {
          var k :| 0 <= k < |rest| && Rejects(code, rest[k])
            && (forall j :: 0 <= j < k ==> !Rejects(code, rest[j]))
            && Scan(code, rest).1 == RefusalFor(rest[k]);
          assert patterns[k + 1] == rest[k];
          assert forall j :: 0 <= j < k + 1 ==> !Rejects(code, patterns[j]) by {
            forall j | 0 <= j < k + 1 ensures !Rejects(code, patterns[j]) {
              if j > 0 { assert patterns[j] == rest[j - 1]; }
            }
          }
        } else {
          forall k | 0 <= k < |patterns| ensures !Rejects(code, patterns[k]) {
            if k > 0 { assert patterns[k] == rest[k - 1]; }
          }
        }
      }
    }
  }

  /** `check_code_safety` accepts exactly when no forbidden pattern rejects the code. */
  lemma CheckCodeSafetyIff(code: string)
    ensures CheckCodeSafety(code).0 <==> forall k :: 0 <= k < |ForbiddenPatterns| ==> !Rejects(code, ForbiddenPatterns[k])
    ensures CheckCodeSafety(code).0 ==> CheckCodeSafety(code).1 == "OK"
  {
    ScanFirstRejection(code, ForbiddenPatterns);
  }

  /** A forbidden name other than `open(` is rejected whatever its letter case. */
  lemma ForbiddenAnywhere(prefix: string, k: int, suffix: string)
    requires 0 <= k < |ForbiddenPatterns| && ForbiddenPatterns[k] != "open("
    ensures !CheckCodeSafety(prefix + ForbiddenPatterns[k] + suffix).0
  {
    var code := prefix + ForbiddenPatterns[k] + suffix;
    var p := ForbiddenPatterns[k];
    LowerConcat(prefix + p, suffix);
    LowerConcat(prefix, p);
    assert Lower(code) == Lower(prefix) + Lower(p) + Lower(suffix);
    assert OccursAt(Lower(code), Lower(p), |prefix|);
    ContainsAt(Lower(code), Lower(p), |prefix|);
    assert Rejects(code, p);
    CheckCodeSafetyIff(code);
  }

  /** What `run_python_code` does before executing anything. */
  datatype Plan = Refuse(message: string) | Execute(code: string, timeout: int)

  /** `run_python_code(code, timeout)` up to the point where the code would run. */
  function RunPlan(code: string, timeout: int): (p: Plan)
    ensures p.Execute? <==> CheckCodeSafety(code).0
    ensures p.Execute? ==> (p.code == code && p.timeout <= MaxTimeout
                            && (timeout <= MaxTimeout ==> p.timeout == timeout))
    ensures p.Refuse? ==> p.message == "❌ " + CheckCodeSafety(code).1
  {
    var capped := if timeout < MaxTimeout then timeout else MaxTimeout;
    var (safe, message) := CheckCodeSafety(code);
    if !safe then Refuse("❌ " + message) else Execute(code, capped)
  }
}
