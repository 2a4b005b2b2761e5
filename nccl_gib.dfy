/** The nccl-gib modifier: the shell lines that load the NCCL gIB
    environment script into an experiment's execution environment, and the
    line that pins NCCL's socket interfaces. */
module NcclGib {
  import opened Wrappers
  import opened Text

  const ScriptDir := "/usr/local/gib/scripts"
  const ScriptName := "set_nccl_env.sh"

  /** A path whose last component has no slash has the part before that
      component as its directory. */
  lemma DirnameOfChild(dir: string, name: string)
    requires dir != [] && dir[|dir| - 1] != '/' && '/' !in name
    ensures Dirname(dir + "/" + name) == dir
  {
    var p := dir + "/" + name;
    AfterLastSlashOfChild(dir + "/", name);
    assert p[..|dir| + 1] == dir + "/";
    assert (dir + "/")[|dir| - 1] != '/';
    RStripCharOfSuffix(dir, '/');
  }

  lemma {:induction false} AfterLastSlashOfChild(head: string, name: string)
    requires head != [] && head[|head| - 1] == '/' && '/' !in name
    ensures AfterLastSlash(head + name) == |head|
    decreases |name|
  {
    if name == [] {
      assert head + name == head;
    } else {
      assert (head + name)[..|head + name| - 1] == head + name[..|name| - 1];
      AfterLastSlashOfChild(head, name[..|name| - 1]);
    }
  }

  lemma RStripCharOfSuffix(s: string, c: char)
    requires s != [] && s[|s| - 1] != c
    ensures RStripChar(s + [c], c) == s
  {
    assert (s + [c])[..|s|] == s;
  }

  /** _nccl_env_script_path(): the environment script, which lives in the
      scripts directory. */
  function NcclEnvScriptPath(): (p: string)
    ensures Dirname(p) == ScriptDir
  {
    DirnameOfChild(ScriptDir, ScriptName);
    ScriptDir + "/" + ScriptName
  }

  /** Why source_gib stops the run. */
  datatype GibError = UnsupportedShell(shell: string)

  /** The line that sources a script with its directory as NCCL_LIB_DIR. */
  function SourceLine(dir: string, sourceStr: string, script: string): string {
    "    NCCL_LIB_DIR=" + dir + " " + sourceStr + " " + script
  }

  /** The lines for one script under the configured shell: the source line
      guarded by a test that the script's directory exists, in the shell's
      own syntax; nothing for a shell it does not know; a fatal error for
      the batch shell. */
  function GibBlock(shell: string, sourceStr: string, script: string): Result<seq<string>, GibError> {
    var dir := Dirname(script);
    var line := SourceLine(dir, sourceStr, script);
    if shell == "bash" || shell == "sh" then
      Success(["if [ -d \"" + dir + "\" ]; then", line, "fi"])
    else if shell == "csh" then
      Success(["if ( -d \"" + dir + "\" ) then", line, "endif"])
    else if shell == "fish" then
      Success(["if test -d \"" + dir + "\"", line, "end"])
    else if shell == "bat" then
      Failure(UnsupportedShell(shell))
    else
      Success([])
  }

  /** The shells source_gib writes a guarded block for. */
  predicate GuardedShell(shell: string) {
    shell == "bash" || shell == "sh" || shell == "csh" || shell == "fish"
  }

  /** The closing line of a guarded block for each shell. */
  function BlockEnd(shell: string): string {
    if shell == "csh" then "endif" else if shell == "fish" then "end" else "fi"
  }

  /** For each known shell the block is three lines: a test on the script's
      directory, the source line, and the shell's closing keyword; the batch
      shell is refused and any other shell gets nothing. */
  lemma GibBlockShape(shell: string, sourceStr: string, script: string)
    ensures GuardedShell(shell) ==>
      var b := GibBlock(shell, sourceStr, script);
      && b.Success? && |b.value| == 3
      && b.value[1] == SourceLine(Dirname(script), sourceStr, script)
      && b.value[2] == BlockEnd(shell)
      && StartsWith(b.value[0], "if ")
    ensures GibBlock(shell, sourceStr, script).Failure? <==> shell == "bat"
    ensures !GuardedShell(shell) && shell != "bat" ==> GibBlock(shell, sourceStr, script) == Success([])
  {
    var dir := Dirname(script);
    if shell == "bash" || shell == "sh" {
      assert ("if [ -d \"" + dir + "\" ]; then")[..3] == "if ";
    } else if shell == "csh" {
      assert ("if ( -d \"" + dir + "\" ) then")[..3] == "if ";
    } else if shell == "fish" {
      assert ("if test -d \"" + dir + "\"")[..3] == "if ";
    }
  }

  /** The block each script contributes under the shell. */
  function ShellBlock(shell: string, sourceStr: string): string -> Result<seq<string>, GibError> {
    script => GibBlock(shell, sourceStr, script)
  }

  /** The blocks of the scripts, in order; the first failure stops it. */
  function Concatenated(scripts: seq<string>, blockOf: string -> Result<seq<string>, GibError>): Result<seq<string>, GibError> {
    if scripts == [] then Success([])
    else
      var block := blockOf(scripts[0]);
      if block.Failure? then block else Prefixed(block.value, Concatenated(scripts[1..], blockOf))
  }

  /** Lines already emitted, in front of the result of the remaining work. */
  function Prefixed(cmds: seq<string>, r: Result<seq<string>, GibError>): Result<seq<string>, GibError> {
    if r.Success? then Success(cmds + r.value) else r
  }

  /** The commands source_gib returns for the scripts of its path
      functions. */
  function SourceGibCommands(shell: string, sourceStr: string, scripts: seq<string>): Result<seq<string>, GibError> {
    Concatenated(scripts, ShellBlock(shell, sourceStr))
  }

  /** Blocks of three lines each join into three lines per script, the
      k-th group of three being the k-th script's block. */
  lemma {:induction false} ConcatenatedShape(scripts: seq<string>, blockOf: string -> Result<seq<string>, GibError>)
    requires forall script :: blockOf(script).Success? && |blockOf(script).value| == 3
    ensures var r := Concatenated(scripts, blockOf);
      && r.Success? && |r.value| == 3 * |scripts|
      && forall k :: 0 <= k < |scripts| ==> r.value[3 * k..3 * k + 3] == blockOf(scripts[k]).value
  {
    if scripts != [] {
      ConcatenatedShape(scripts[1..], blockOf);
      var block := blockOf(scripts[0]).value;
      var rest := Concatenated(scripts[1..], blockOf).value;
      forall k | 0 <= k < |scripts|
        ensures (block + rest)[3 * k..3 * k + 3] == blockOf(scripts[k]).value
      {
        GroupOfConcat(block, rest, k);
        if k > 0 {
          assert scripts[k] == scripts[1..][k - 1];
        }
      }
    }
  }

  /** The k-th group of three lines of a three-line block followed by more
      lines. */
  lemma GroupOfConcat(block: seq<string>, rest: seq<string>, k: nat)
    requires |block| == 3 && 3 * k + 3 <= |block| + |rest|
    ensures k == 0 ==> (block + rest)[3 * k..3 * k + 3] == block
    ensures k > 0 ==> (block + rest)[3 * k..3 * k + 3] == rest[3 * (k - 1)..3 * (k - 1) + 3]
  {
  }

  /** A guarded shell gets three lines per script: the k-th group of
      three is the guarded block of the k-th script. */
  lemma GuardedCommandsShape(shell: string, sourceStr: string, scripts: seq<string>)
    requires GuardedShell(shell)
    ensures var r := SourceGibCommands(shell, sourceStr, scripts);
      && r.Success? && |r.value| == 3 * |scripts|
      && (forall k :: 0 <= k < |scripts| ==>
            GibBlock(shell, sourceStr, scripts[k]).Success? &&
            r.value[3 * k..3 * k + 3] == GibBlock(shell, sourceStr, scripts[k]).value)
  {
    var blockOf := ShellBlock(shell, sourceStr);
    forall script
      ensures blockOf(script).Success? && |blockOf(script).value| == 3
    {
      GibBlockShape(shell, sourceStr, script);
    }
    ConcatenatedShape(scripts, blockOf);
  }

  /** The batch shell fails as soon as there is a script. */
  lemma BatchShellFails(sourceStr: string, scripts: seq<string>)
    requires scripts != []
    ensures SourceGibCommands("bat", sourceStr, scripts) == Failure(UnsupportedShell("bat"))
  {
  }

  /** Any other shell gets no commands. */
  lemma {:induction false} OtherShellGetsNothing(shell: string, sourceStr: string, scripts: seq<string>)
    requires !GuardedShell(shell) && shell != "bat"
    ensures SourceGibCommands(shell, sourceStr, scripts) == Success([])
  {
    if scripts != [] {
      GibBlockShape(shell, sourceStr, scripts[0]);
      OtherShellGetsNothing(shell, sourceStr, scripts[1..]);
      var none: seq<string> := [];
      assert none + none == none;
    }
  }

  /** source_gib: the command list built from the shell and the scripts
      its path functions return. */
  method SourceGib(shell: string, sourceStr: string, scripts: seq<string>) returns (r: Result<seq<string>, GibError>)
    ensures r == SourceGibCommands(shell, sourceStr, scripts)
  {
    r := ExtendCommands(shell, sourceStr, scripts, ShellBlock(shell, sourceStr));
  }

  /** The loop over the path functions extending the command list with each
      script's block; `blockOf` is the block GibBlock gives a script. */
  method ExtendCommands(shell: string, sourceStr: string, scripts: seq<string>, ghost blockOf: string -> Result<seq<string>, GibError>)
    returns (r: Result<seq<string>, GibError>)
    requires forall script {:trigger GibBlock(shell, sourceStr, script)} :: blockOf(script) == GibBlock(shell, sourceStr, script)
    ensures r == Concatenated(scripts, blockOf)
  {
    var cmds: seq<string> := [];
    var i := 0;
    assert scripts[i..] == scripts;
    PrefixedEmpty(Concatenated(scripts, blockOf));
    while i < |scripts|
      invariant 0 <= i <= |scripts|
      invariant Concatenated(scripts, blockOf) == Prefixed(cmds, Concatenated(scripts[i..], blockOf))
    {
      assert scripts[i..][0] == scripts[i] && scripts[i..][1..] == scripts[i + 1..];
      var block := GibBlock(shell, sourceStr, scripts[i]);
      if block.Failure? {
        return Failure(block.error);
      }
      PrefixedTwice(cmds, block.value, Concatenated(scripts[i + 1..], blockOf));
      cmds := cmds + block.value;
      i := i + 1;
    }
    assert scripts[i..] == [] && cmds + [] == cmds;
    return Success(cmds);
  }

  /** Nothing emitted yet leaves the result as it is. */
  lemma PrefixedEmpty(r: Result<seq<string>, GibError>)
    ensures Prefixed([], r) == r
  {
    if r.Success? {
      assert [] + r.value == r.value;
    }
  }

  /** Emitting a block and then more lines is emitting both at once. */
  lemma PrefixedTwice(cmds: seq<string>, block: seq<string>, r: Result<seq<string>, GibError>)
    ensures Prefixed(cmds, Prefixed(block, r)) == Prefixed(cmds + block, r)
  {
    if r.Success? {
      assert cmds + (block + r.value) == (cmds + block) + r.value;
    }
  }

  /** What the modifier injects under bash: the guarded source of the NCCL
      environment script from its own directory. */
  lemma ModifierUnderBash(sourceStr: string)
    ensures SourceGibCommands("bash", sourceStr, [NcclEnvScriptPath()]) ==
      Success(["if [ -d \"" + ScriptDir + "\" ]; then",
               SourceLine(ScriptDir, sourceStr, NcclEnvScriptPath()),
               "fi"])
  {
    var p := NcclEnvScriptPath();
    assert [p][0] == p && [p][1..] == [];
    assert SourceGibCommands("bash", sourceStr, [p][1..]) == Success([]);
    var block := ["if [ -d \"" + ScriptDir + "\" ]; then", SourceLine(ScriptDir, sourceStr, p), "fi"];
    assert GibBlock("bash", sourceStr, p) == Success(block);
    assert block + [] == block;
  }

  // ---------------------------------------------------------------------
  // overwrite_nccl_socket_env_var

  const SocketInterfaces := ["enp0s19", "enp192s20"]

  /** overwrite_nccl_socket_env_var(): one export of NCCL_SOCKET_IFNAME. */
  function OverwriteNcclSocketEnvVar(): seq<string> {
    ["export NCCL_SOCKET_IFNAME=enp0s19,enp192s20;"]
  }

  /** The one command exports NCCL_SOCKET_IFNAME as the comma-separated list
      of the two interfaces. */
  lemma SocketExportNamesInterfaces()
    ensures |OverwriteNcclSocketEnvVar()| == 1
    ensures OverwriteNcclSocketEnvVar()[0] == "export NCCL_SOCKET_IFNAME=" + Join(SocketInterfaces, ",") + ";"
  {
    assert SocketInterfaces[1..] == ["enp192s20"];
  }

  // ---------------------------------------------------------------------
  // builtin registration

  datatype Injection = Prepend | Append

  /** A register_builtin declaration. */
  datatype Builtin = Builtin(name: string, injection: Injection, dependsOn: seq<string>)

  /** The modifier's builtins, in declaration order. */
  const Builtins := [
    Builtin("source_gib", Prepend, []),
    Builtin("overwrite_nccl_socket_env_var", Prepend, ["source_gib"])
  ]

  /** Every dependency names a builtin declared before the one that needs it. */
  predicate DependenciesDeclaredFirst(bs: seq<Builtin>) {
    forall i, d :: 0 <= i < |bs| && d in bs[i].dependsOn ==> exists j :: 0 <= j < i && bs[j].name == d
  }

  /** Both builtins are prepended, the socket override depends on the source
      block, and no builtin depends on one declared after it. */
  lemma BuiltinsAreOrdered()
    ensures forall b :: b in Builtins ==> b.injection == Prepend
    ensures DependenciesDeclaredFirst(Builtins)
    ensures Builtins[1].dependsOn == [Builtins[0].name]
  {
    forall i, d | 0 <= i < |Builtins| && d in Builtins[i].dependsOn
      ensures exists j :: 0 <= j < i && Builtins[j].name == d
    {
      assert i == 1 && d == "source_gib" && Builtins[0].name == d;
    }
  }
}
