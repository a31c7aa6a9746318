/**
 * The command gate of `SafeBashExecutor`: a whitelist on the command name, a
 * list of blocked substrings, a ban on `..` and `~`, and the check that the
 * working directory lies inside the workspace, all applied before a command
 * is handed to the shell.
 */
module BashExecutor {
  import opened Wrappers
  import opened Text

  /** The executor's configuration, fixed when it is built. */
  datatype Executor = Executor(
    allowedCommands: seq<string>,
    blockedPatterns: seq<string>,
    workspace: string,
    timeout: int)

  /**
   * The executor built from a loaded configuration; a missing entry takes its
   * default (no allowed commands, no blocked patterns, `./workspace`, 30 seconds).
   */
  function FromConfig(allowed: Option<seq<string>>, blocked: Option<seq<string>>,
                      workspace: Option<string>, timeout: Option<int>): (e: Executor)
    ensures allowed.None? ==> e.allowedCommands == []
    ensures allowed.Some? ==> e.allowedCommands == allowed.value
    ensures blocked.None? ==> e.blockedPatterns == []
    ensures blocked.Some? ==> e.blockedPatterns == blocked.value
    ensures workspace.None? ==> e.workspace == "./workspace"
    ensures workspace.Some? ==> e.workspace == workspace.value
    ensures timeout.None? ==> e.timeout == 30
    ensures timeout.Some? ==> e.timeout == timeout.value
  {
    Executor(
      if allowed.Some? then allowed.value else [],
      if blocked.Some? then blocked.value else [],
      if workspace.Some? then workspace.value else "./workspace",
      if timeout.Some? then timeout.value else 30)
  }

  /** `command.split()[0] if command.strip() else ""`. */
  function CommandName(command: string): (name: string)
    ensures name == [] <==> AllSpace(command)
    ensures name != [] ==> StartsWith(command[|command| - |TrimLeft(command)|..], name)
  {
    if Strip(command) != [] then
      WordsOfNonBlank(command);
      FirstWordStart(command);
      SplitWhitespace(command)[0]
    else []
  }

  /** The first word of `s` is where `s` stops starting with whitespace. */
  lemma {:induction false} FirstWordStart(s: string)
    requires SplitWhitespace(s) != []
    ensures StartsWith(s[|s| - |TrimLeft(s)|..], SplitWhitespace(s)[0])
    decreases |s|
  {
    if IsSpace(s[0]) {
      FirstWordStart(s[1..]);
      assert s[1..][|s[1..]| - |TrimLeft(s[1..])|..] == s[|s| - |TrimLeft(s)|..];
    }
  }

  /** The first blocked pattern that occurs in the command, if any. */
  function FirstBlocked(command: string, patterns: seq<string>): (r: Option<string>)
    ensures r.None? <==> forall k :: 0 <= k < |patterns| ==> !Contains(command, patterns[k])
    ensures r.Some? ==> exists k :: (0 <= k < |patterns| && patterns[k] == r.value && Contains(command, r.value)
                                     && forall j :: 0 <= j < k ==> !Contains(command, patterns[j]))
    decreases |patterns|
  {
    if patterns == [] then None
    else if Contains(command, patterns[0]) then Some(patterns[0])
    else
      var r := FirstBlocked(command, patterns[1..]);
      assert forall k :: 1 <= k < |patterns| ==> patterns[k] == patterns[1..][k - 1];
      if r.Some? then
        var k :| 0 <= k < |patterns[1..]| && patterns[1..][k] == r.value
          && Contains(command, r.value) && forall j :: 0 <= j < k ==> !Contains(command, patterns[1..][j]);
        assert patterns[k + 1] == r.value;
        r
      else r
  }

  /** `_validate_command(command)`: validity and, when invalid, the reason. */
  function ValidateCommand(e: Executor, command: string): (r: (bool, Option<string>))
    ensures r.0 <==> CommandName(command) in e.allowedCommands
                     && (forall k :: 0 <= k < |e.blockedPatterns| ==> !Contains(command, e.blockedPatterns[k]))
                     && !Contains(command, "..") && !Contains(command, "~")
    ensures r.0 <==> r.1.None?
  {
    var name := CommandName(command);
    if name !in e.allowedCommands then
      (false, Some("命令 '" + name + "' 不在白名單中"))
    else
      match FirstBlocked(command, e.blockedPatterns)
      case Some(pattern) => (false, Some("命令包含危險模式: '" + pattern + "'"))
      case None =>
        if Contains(command, "..") || Contains(command, "~") then
          (false, Some("不允許使用相對路徑或家目錄符號"))
        else (true, None)
  }

  /** A blank command passes the whitelist only if the empty name is whitelisted. */
  lemma BlankCommandRejected(e: Executor, command: string)
    requires AllSpace(command) && "" !in e.allowedCommands
    ensures !ValidateCommand(e, command).0
    ensures ValidateCommand(e, command).1 == Some("命令 '' 不在白名單中")
  {
    assert CommandName(command) == [];
    assert "命令 '" + [] + "' 不在白名單中" == "命令 '' 不在白名單中";
  }

  /** A blocked pattern anywhere in a command invalidates it, whatever surrounds it. */
  lemma BlockedAnywhere(e: Executor, prefix: string, k: int, suffix: string)
    requires 0 <= k < |e.blockedPatterns|
    ensures !ValidateCommand(e, prefix + e.blockedPatterns[k] + suffix).0
  {
    var p := e.blockedPatterns[k];
    var command := prefix + p + suffix;
    assert command[|prefix|..|prefix| + |p|] == p;
    ContainsAt(command, p, |prefix|);
  }

  /** The result record `execute` returns. */
  datatype ExecResult = ExecResult(success: bool, stdout: string, stderr: string, returnCode: int)

  /** The directory a command runs in: the configured workspace, or a resolved path. */
  datatype WorkDir = Workspace(path: string) | Resolved(parts: seq<string>)

  /** What `execute` does before the shell is started. */
  datatype Plan = Refused(result: ExecResult) | Run(command: string, cwd: WorkDir, timeout: int)

  /** `Path.relative_to` succeeds: the base's parts start the path's parts. */
  predicate Under(path: seq<string>, base: seq<string>) {
    |base| <= |path| && path[..|base|] == base
  }

  function Failure(stderr: string): ExecResult {
    ExecResult(false, "", stderr, -1)
  }

  /**
   * `execute(command, working_dir)` up to starting the shell. Resolving a path
   * against the file system is the parameter `resolve`, giving its parts.
   */
  function Precheck(e: Executor, command: string, workingDir: Option<string>,
                    resolve: string -> seq<string>): (p: Plan)
    ensures p.Run? <==> (ValidateCommand(e, command).0
                        && (workingDir.Some? && workingDir.value != [] ==> Under(resolve(workingDir.value), resolve(e.workspace))))
    ensures p.Refused? ==> !p.result.success && p.result.stdout == [] && p.result.returnCode == -1
    ensures p.Run? ==> p.command == command && p.timeout == e.timeout
    ensures p.Run? && p.cwd.Resolved? ==> Under(p.cwd.parts, resolve(e.workspace))
    ensures p.Run? && (workingDir.None? || workingDir.value == []) ==> p.cwd == Workspace(e.workspace)
  {
    var (valid, message) := ValidateCommand(e, command);
    if !valid then
      Refused(Failure("安全檢查失敗: " + (if message.Some? then message.value else "None")))
    else if workingDir.Some? && workingDir.value != [] then
      var path := resolve(workingDir.value);
      if Under(path, resolve(e.workspace)) then Run(command, Resolved(path), e.timeout)
      else Refused(Failure("工作目錄超出允許範圍"))
    else Run(command, Workspace(e.workspace), e.timeout)
  }
}
