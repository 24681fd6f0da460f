/** The configuration of one commenter run (config/config.go): every setting
    comes from an environment variable or its default, three settings are
    derived from the others, and five are required.  The package-global
    `config` that `Init` fills in and `GetConfig` reads is passed here as a
    value: `Init` returns it and `GetConfig` takes it. */
module Config {

  import opened Results

  /** The process environment as `os.LookupEnv` sees it: a variable is either
      unset (not a key) or set, possibly to the empty string. */
  type Env = map<string, string>

  datatype Config = Config(
    headCommit: string,
    projectName: string,
    ghStatusContext: string,
    workspace: string,
    baseRepoOwner: string,
    baseRepoName: string,
    pullNum: string,
    templateFilename: string,
    githubToken: string,
    projectRunDetails: string,
    projectIdentifier: string,
    tmpGhpcDir: string)

  const DefaultProjectName: string := "atlantis"
  const DefaultWorkspace: string := "default"
  const DefaultTemplateFile: string := "template.md"
  const DefaultTmpGhpcDir: string := "/tmp/ghpc"

  /** getEnv: the value of a set variable, even an empty one; the default
      only for a variable that is not set at all. */
  function GetEnv(env: Env, key: string, defaultValue: string): (r: string)
    ensures key in env ==> r == env[key]
    ensures key !in env ==> r == defaultValue
  {
    if key in env then env[key] else defaultValue
  }

  /** The `<h3>` line naming the project and workspace. */
  function RunDetails(projectName: string, workspace: string): string {
    "<h3>Project: <code>" + projectName + "</code> Workspace: <code>" + workspace + "</code></h3>\n"
  }

  /** The settings read from the environment, before the derived ones. */
  function FromEnv(env: Env): Config {
    Config(
      headCommit := GetEnv(env, "HEAD_COMMIT", ""),
      projectName := GetEnv(env, "PROJECT_NAME", DefaultProjectName),
      ghStatusContext := GetEnv(env, "GH_STATUS_CONTEXT", ""),
      workspace := GetEnv(env, "WORKSPACE", DefaultWorkspace),
      baseRepoOwner := GetEnv(env, "BASE_REPO_OWNER", ""),
      baseRepoName := GetEnv(env, "BASE_REPO_NAME", ""),
      pullNum := GetEnv(env, "PULL_NUM", ""),
      templateFilename := GetEnv(env, "TEMPLATE_FILENAME", DefaultTemplateFile),
      githubToken := GetEnv(env, "GITHUB_TOKEN", ""),
      projectRunDetails := "",
      projectIdentifier := "",
      tmpGhpcDir := GetEnv(env, "TMP_GHPC_DIR", DefaultTmpGhpcDir))
  }

  /** Init: the settings from the environment, then the project details and
      identifier (only when both project name and workspace are non-empty),
      then the status context, which either qualifies the configured context
      with the command and project or falls back to `ghpc/<command>`. */
  function Init(env: Env, cmdName: string): (c: Config)
    ensures c.headCommit == GetEnv(env, "HEAD_COMMIT", "")
    ensures c.projectName == GetEnv(env, "PROJECT_NAME", DefaultProjectName)
    ensures c.workspace == GetEnv(env, "WORKSPACE", DefaultWorkspace)
    ensures c.baseRepoOwner == GetEnv(env, "BASE_REPO_OWNER", "")
    ensures c.baseRepoName == GetEnv(env, "BASE_REPO_NAME", "")
    ensures c.pullNum == GetEnv(env, "PULL_NUM", "")
    ensures c.templateFilename == GetEnv(env, "TEMPLATE_FILENAME", DefaultTemplateFile)
    ensures c.githubToken == GetEnv(env, "GITHUB_TOKEN", "")
    ensures c.tmpGhpcDir == GetEnv(env, "TMP_GHPC_DIR", DefaultTmpGhpcDir)
    ensures c.projectName != "" && c.workspace != "" ==>
      c.projectIdentifier == c.projectName + "-" + c.workspace
      && c.projectRunDetails == RunDetails(c.projectName, c.workspace)
    ensures c.projectName == "" || c.workspace == "" ==> c.projectIdentifier == "" && c.projectRunDetails == ""
    ensures GetEnv(env, "GH_STATUS_CONTEXT", "") != "" && c.projectName != "" ==>
      c.ghStatusContext == GetEnv(env, "GH_STATUS_CONTEXT", "") + "/" + cmdName + ": " + c.projectName
    ensures GetEnv(env, "GH_STATUS_CONTEXT", "") == "" || c.projectName == "" ==>
      c.ghStatusContext == "ghpc/" + cmdName
  {
    var read := FromEnv(env);
    var detailed :=
      if read.projectName != "" && read.workspace != "" then
        read.(projectRunDetails := RunDetails(read.projectName, read.workspace),
              projectIdentifier := read.projectName + "-" + read.workspace)
      else read;
    if detailed.ghStatusContext != "" && detailed.projectName != "" then
      detailed.(ghStatusContext := detailed.ghStatusContext + "/" + cmdName + ": " + detailed.projectName)
    else
      detailed.(ghStatusContext := "ghpc" + "/" + cmdName)
  }

  /** With nothing set, the defaults apply and the derived settings are those
      of project `atlantis` in workspace `default`. */
  lemma InitDefaults(cmdName: string)
    ensures Init(map[], cmdName) == Config(
      headCommit := "",
      projectName := "atlantis",
      ghStatusContext := "ghpc/" + cmdName,
      workspace := "default",
      baseRepoOwner := "",
      baseRepoName := "",
      pullNum := "",
      templateFilename := "template.md",
      githubToken := "",
      projectRunDetails := RunDetails("atlantis", "default"),
      projectIdentifier := "atlantis-default",
      tmpGhpcDir := "/tmp/ghpc")
  {
    var c := Init(map[], cmdName);
    assert c.projectName == "atlantis" && c.workspace == "default";
    assert "atlantis" + "-" + "default" == "atlantis-default";
    assert "ghpc" + "/" + cmdName == "ghpc/" + cmdName;
  }

  /** A project name or workspace set to the empty string is not replaced by
      its default, so no project details or identifier are derived, and the
      status context falls back even when a context is configured. */
  lemma InitEmptyProject(env: Env, cmdName: string)
    requires "PROJECT_NAME" in env && env["PROJECT_NAME"] == ""
    ensures Init(env, cmdName).projectName == ""
    ensures Init(env, cmdName).projectIdentifier == "" && Init(env, cmdName).projectRunDetails == ""
    ensures Init(env, cmdName).ghStatusContext == "ghpc/" + cmdName
  {
  }

  /** The names of the required variables, in the order they are checked. */
  const RequiredVariables: seq<string> := ["HEAD_COMMIT", "BASE_REPO_OWNER", "BASE_REPO_NAME", "PULL_NUM", "GITHUB_TOKEN"]

  /** The settings of the required variables, in the same order. */
  function RequiredValues(c: Config): (r: seq<string>)
    ensures |r| == |RequiredVariables|
  {
    [c.headCommit, c.baseRepoOwner, c.baseRepoName, c.pullNum, c.githubToken]
  }

  function MissingVariable(name: string): Error {
    Message("required environment variable " + name + " not set")
  }

  /** GetConfig: the configuration `Init` stored, unchanged, when all five
      required settings are non-empty; otherwise the error naming the first
      of them, in checking order, that is empty.  No other setting is
      required. */
  function GetConfig(c: Config): (r: Result<Config>)
    ensures r.Success? <==> forall i :: 0 <= i < |RequiredVariables| ==> RequiredValues(c)[i] != ""
    ensures r.Success? ==> r.value == c
    ensures r.Failure? ==>
      exists i :: (0 <= i < |RequiredVariables| && RequiredValues(c)[i] == ""
                   && (forall j :: 0 <= j < i ==> RequiredValues(c)[j] != "")
                   && r.error == MissingVariable(RequiredVariables[i]))
  {
    if c.headCommit == "" then
      assert RequiredValues(c)[0] == "";
      Failure(MissingVariable("HEAD_COMMIT"))
    else if c.baseRepoOwner == "" then
      assert RequiredValues(c)[1] == "";
      Failure(MissingVariable("BASE_REPO_OWNER"))
    else if c.baseRepoName == "" then
      assert RequiredValues(c)[2] == "";
      Failure(MissingVariable("BASE_REPO_NAME"))
    else if c.pullNum == "" then
      assert RequiredValues(c)[3] == "";
      Failure(MissingVariable("PULL_NUM"))
    else if c.githubToken == "" then
      assert RequiredValues(c)[4] == "";
      Failure(MissingVariable("GITHUB_TOKEN"))
    else
      Success(c)
  }

  /** With only project name, workspace, status context, template and
      scratch directory set, validation fails on the head commit, the first
      required variable: none of the optional settings can stand in for a
      required one. */
  lemma OptionalSettingsNotEnough(env: Env, cmdName: string)
    requires "HEAD_COMMIT" !in env
    ensures GetConfig(Init(env, cmdName)) == Failure(MissingVariable("HEAD_COMMIT"))
  {
    assert Init(env, cmdName).headCommit == "";
  }

  /** A run that configures project `test-project` in workspace
      `test-workspace` with status context `test-context`: the status
      context is qualified by the command and the project. */
  lemma InitQualifiedContext()
    ensures var env := map["PROJECT_NAME" := "test-project", "GH_STATUS_CONTEXT" := "test-context",
                           "WORKSPACE" := "test-workspace"];
      var c := Init(env, "test-cmd");
      && c.ghStatusContext == "test-context/test-cmd: test-project"
      && c.projectIdentifier == "test-project-test-workspace"
  {
    var env := map["PROJECT_NAME" := "test-project", "GH_STATUS_CONTEXT" := "test-context",
                   "WORKSPACE" := "test-workspace"];
    assert env["PROJECT_NAME"] == "test-project";
    assert env["GH_STATUS_CONTEXT"] == "test-context";
    assert env["WORKSPACE"] == "test-workspace";
    assert "test-context" + "/" + "test-cmd" + ": " + "test-project" == "test-context/test-cmd: test-project";
    assert "test-project" + "-" + "test-workspace" == "test-project-test-workspace";
  }
}
