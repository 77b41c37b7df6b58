/** A source file of the repository (`glotter/models/source.py`): its path-derived
    names, the commands it runs in its container, and the discovery of sources from a
    directory walk. */
module Sources {
  import opened Text
  import opened Outcomes
  import opened Paths
  import opened Naming
  import opened TestInfo
  import opened Docker
  import opened ContainerFactory

  /** A source: its file name with extension, its language, the directory holding it,
      and the manifest of that directory as read for this source. */
  datatype Source = Source(fileName: string, language: string, path: string, testInfo: TestInfo)

  /** What `exec_run` hands back: the exit code and the decoded output. */
  datatype ExecResult = ExecResult(exitCode: int, output: string)

  /** `full_path`: the key under which the factory keeps the source's container. */
  function FullPath(s: Source): string {
    PathJoin(s.path, s.fileName)
  }

  /** `name`: the file name without its extension. */
  function Name(s: Source): string {
    Splitext(s.fileName).0
  }

  /** `extension`: the last dot-suffix of the file name, or empty. */
  function Extension(s: Source): string {
    Splitext(s.fileName).1
  }

  /** The full path ends in the file name and, for a relative file name, starts with
      the source's directory. */
  lemma FullPathParts(s: Source)
    ensures var r := FullPath(s);
      && |r| >= |s.fileName| && r[|r| - |s.fileName|..] == s.fileName
      && (!(|s.fileName| > 0 && s.fileName[0] == '/') ==> |r| >= |s.path| && r[..|s.path|] == s.path)
  {
    PathJoinParts(s.path, s.fileName);
  }

  /** The name is a prefix of the file name, the whole of it exactly when the file name
      has no extension. */
  lemma NameIsRoot(s: Source)
    ensures |Name(s)| <= |s.fileName| && s.fileName[..|Name(s)|] == Name(s)
    ensures Name(s) == s.fileName <==> forall d :: !ExtensionAt(s.fileName, d)
  {
    var parts := Splitext(s.fileName);
    assert (parts.0 + parts.1)[..|parts.0|] == parts.0;
  }

  /** The extension is a suffix of the file name that, when not empty, starts at the
      dot that begins the file name's extension. */
  lemma ExtensionIsSuffix(s: Source)
    ensures |Extension(s)| <= |s.fileName| && s.fileName[|s.fileName| - |Extension(s)|..] == Extension(s)
    ensures Extension(s) != "" ==> Extension(s)[0] == '.' && ExtensionAt(s.fileName, |s.fileName| - |Extension(s)|)
  {
    var parts := Splitext(s.fileName);
    assert (parts.0 + parts.1)[|parts.0|..] == parts.1;
  }

  /** The name and the extension put back together are the file name; the extension
      is empty or starts at the dot that begins the file's extension. */
  lemma NameAndExtension(s: Source)
    ensures Name(s) + Extension(s) == s.fileName
    ensures Extension(s) == "" <==> forall d :: !ExtensionAt(s.fileName, d)
    ensures Extension(s) != "" ==> Extension(s)[0] == '.' && ExtensionAt(s.fileName, |Name(s)|)
  {
  }

  /** A file name without separators is the last component of the full path. */
  lemma FullPathEndsInFileName(s: Source)
    requires '/' !in s.fileName
    ensures Basename(FullPath(s)) == s.fileName
  {
    BasenameOfJoin(s.path, s.fileName);
  }

  /** The full path of the unit tests' source. */
  lemma FullPathExample(language: string, t: TestInfo)
    ensures FullPath(Source("name", language, "this/is/a/path", t)) == "this/is/a/path/name"
  {
  }

  /** The last call run in the container the factory keeps for `key`. */
  ghost predicate Ran(w: World, key: string, call: ExecCall) {
    && key in w.registry.containers
    && w.registry.containers[key] < |w.engine.containers|
    && var execs := w.engine.containers[w.registry.containers[key]].execs;
       |execs| > 0 && execs[|execs| - 1] == call
  }

  /** `_container_exec`: acquire the source's container and run the command there,
      in the foreground, from the mounted workspace. `tmp` and `uuid` feed the
      container acquisition; `result` is what the engine reports for the command. */
  function ContainerExec(w: World, s: Source, command: string, tmp: string, uuid: string, result: ExecResult)
    : (r: Step<ExecResult>)
    requires tmp !in w.host.tempDirs
    ensures var acquired := GetContainer(w, FullPath(s), Name(s), s.testInfo.containerInfo, tmp, uuid);
      && (r.outcome.Err? <==> acquired.outcome.Err?)
      && (r.outcome.Err? ==> r.world == acquired.world && r.outcome.error == acquired.outcome.error)
      && (r.outcome.Ok? ==> r.outcome.value == result)
      && r.world.registry == acquired.world.registry
    ensures Valid(w) && r.outcome.Ok? ==> Ran(r.world, FullPath(s), ExecCall(command, WorkDir, false))
  {
    var acquired := GetContainer(w, FullPath(s), Name(s), s.testInfo.containerInfo, tmp, uuid);
    match acquired.outcome
    case Err(e) => Step(acquired.world, Err(e))
    case Ok(h) =>
      var engine := ExecRun(acquired.world.engine, h, ExecCall(command, WorkDir, false));
      Step(acquired.world.(engine := engine), Ok(result))
  }

  /** Running a command in a source's container keeps the factory's tables consistent:
      the container it ran in is still live and every other container is as it was. */
  lemma ContainerExecPreservesValid(w: World, s: Source, command: string, tmp: string, uuid: string,
                                    result: ExecResult)
    requires Valid(w)
    requires tmp !in w.host.tempDirs
    ensures Valid(ContainerExec(w, s, command, tmp, uuid, result).world)
  {
    GetContainerPreservesValid(w, FullPath(s), Name(s), s.testInfo.containerInfo, tmp, uuid);
  }

  /** `build`: without a build command nothing happens; otherwise the build command and
      the parameters, separated by a space, are run, and a non-zero exit code is raised
      together with the output. */
  function Build(w: World, s: Source, params: string, tmp: string, uuid: string, result: ExecResult)
    : (r: Step<()>)
    requires tmp !in w.host.tempDirs
    ensures s.testInfo.containerInfo.build.None? ==> r == Step(w, Ok(()))
    ensures s.testInfo.containerInfo.build.Some? ==>
      var command := s.testInfo.containerInfo.build.value + " " + params;
      var acquired := GetContainer(w, FullPath(s), Name(s), s.testInfo.containerInfo, tmp, uuid);
      && (r.outcome.Ok? <==> acquired.outcome.Ok? && result.exitCode == 0)
      && (acquired.outcome.Ok? && result.exitCode != 0 ==>
            r.outcome == Err(RuntimeError("unable to build using cmd \"" + command + "\":\n" + result.output)))
      && (Valid(w) && acquired.outcome.Ok? ==> Ran(r.world, FullPath(s), ExecCall(command, WorkDir, false)))
  {
    match s.testInfo.containerInfo.build
    case None => Step(w, Ok(()))
    case Some(build) =>
      var command := build + " " + params;
      var ran := ContainerExec(w, s, command, tmp, uuid, result);
      match ran.outcome
      case Err(e) => Step(ran.world, Err(e))
      case Ok(res) =>
        if res.exitCode != 0 then
          Step(ran.world, Err(RuntimeError("unable to build using cmd \"" + command + "\":\n" + res.output)))
        else Step(ran.world, Ok(()))
  }

  /** `run`: the run command and the parameters (none meaning empty), separated by a
      space, are run, and the output is returned whatever the exit code. */
  function Run(w: World, s: Source, params: Option<string>, tmp: string, uuid: string, result: ExecResult)
    : (r: Step<string>)
    requires tmp !in w.host.tempDirs
    ensures var arguments := if params.Some? then params.value else "";
      var command := s.testInfo.containerInfo.cmd + " " + arguments;
      var acquired := GetContainer(w, FullPath(s), Name(s), s.testInfo.containerInfo, tmp, uuid);
      && (r.outcome.Ok? <==> acquired.outcome.Ok?)
      && (r.outcome.Ok? ==> r.outcome.value == result.output)
      && (Valid(w) && r.outcome.Ok? ==> Ran(r.world, FullPath(s), ExecCall(command, WorkDir, false)))
  {
    var arguments := if params.Some? then params.value else "";
    var ran := ContainerExec(w, s, s.testInfo.containerInfo.cmd + " " + arguments, tmp, uuid, result);
    match ran.outcome
    case Err(e) => Step(ran.world, Err(e))
    case Ok(res) => Step(ran.world, Ok(res.output))
  }

  /** Running without parameters and running with empty parameters are the same. */
  lemma RunWithoutParams(w: World, s: Source, tmp: string, uuid: string, result: ExecResult)
    requires tmp !in w.host.tempDirs
    ensures Run(w, s, None, tmp, uuid, result) == Run(w, s, Some(""), tmp, uuid, result)
  {
  }

  /** `exec`: the command is run as given and the output returned whatever the exit code. */
  function Exec(w: World, s: Source, command: string, tmp: string, uuid: string, result: ExecResult)
    : (r: Step<string>)
    requires tmp !in w.host.tempDirs
    ensures var acquired := GetContainer(w, FullPath(s), Name(s), s.testInfo.containerInfo, tmp, uuid);
      && (r.outcome.Ok? <==> acquired.outcome.Ok?)
      && (r.outcome.Ok? ==> r.outcome.value == result.output)
      && (Valid(w) && r.outcome.Ok? ==> Ran(r.world, FullPath(s), ExecCall(command, WorkDir, false)))
  {
    var ran := ContainerExec(w, s, command, tmp, uuid, result);
    match ran.outcome
    case Err(e) => Step(ran.world, Err(e))
    case Ok(res) => Step(ran.world, Ok(res.output))
  }

  /** `build`, `run` and `exec` keep the factory's tables consistent. */
  lemma CommandsPreserveValid(w: World, s: Source, command: string, params: string, tmp: string, uuid: string,
                              result: ExecResult)
    requires Valid(w)
    requires tmp !in w.host.tempDirs
    ensures Valid(Build(w, s, params, tmp, uuid, result).world)
    ensures Valid(Run(w, s, Some(params), tmp, uuid, result).world)
    ensures Valid(Exec(w, s, command, tmp, uuid, result).world)
  {
    if s.testInfo.containerInfo.build.Some? {
      ContainerExecPreservesValid(w, s, s.testInfo.containerInfo.build.value + " " + params, tmp, uuid, result);
    }
    ContainerExecPreservesValid(w, s, s.testInfo.containerInfo.cmd + " " + params, tmp, uuid, result);
    ContainerExecPreservesValid(w, s, command, tmp, uuid, result);
  }

  /** `cleanup`: the factory's cleanup under the source's full path. */
  function Cleanup(w: World, s: Source): (r: Step<()>)
    ensures r.outcome.Ok? ==> FullPath(s) !in r.world.registry.containers && FullPath(s) !in r.world.registry.workspaces
    ensures FullPath(s) !in w.registry.containers ==> r == Step(w, Err(KeyError(FullPath(s))))
  {
    ContainerFactory.Cleanup(w, FullPath(s))
  }

  /** One directory of the walk: its absolute path, the names of the files in it, and
      its `testinfo.yml` as parsed YAML (consulted only when the file is listed). */
  datatype WalkEntry = WalkEntry(path: string, files: seq<string>, manifest: map<string, Dict>)

  /** The manifest name that marks a directory of sources. */
  const ManifestFile: string := "testinfo.yml"

  /** Renders a directory's manifest for one of its files and parses the result. */
  type Render = (string, string) -> map<string, Dict>

  /** The expected file name of every project in a manifest directory. */
  function DirNames(projects: map<string, Project>, e: WalkEntry): (r: Result<map<string, string>>)
    ensures "folder" !in e.manifest ==> r == Err(KeyError("folder"))
    ensures r.Ok? ==> r.value.Keys == projects.Keys
  {
    if "folder" !in e.manifest then Err(KeyError("folder"))
    else
      var folder :- FolderInfoFromDict(e.manifest["folder"]);
      GetProjectMappings(folder, projects, true)
  }

  /** The source a directory holds for the project whose expected file name is `name`,
      if the file is there. */
  function Found(e: WalkEntry, name: string, render: Render): (r: Result<seq<Source>>)
    ensures name !in e.files ==> r == Ok([])
    ensures r.Err? <==> name in e.files && TestInfoFromDict(render(e.path, name)).Err?
    ensures r.Ok? && name in e.files ==>
      && |r.value| == 1
      && r.value[0].fileName == name
      && r.value[0].path == e.path
      && r.value[0].language == Basename(e.path)
  {
    if name !in e.files then Ok([])
    else
      var info :- TestInfoFromDict(render(e.path, name));
      Ok([Source(name, Basename(e.path), e.path, info)])
  }

  /** The projects are visited in `order`; each project whose expected file is in the
      directory gets that file's source appended to its bucket. */
  function AddFound(order: seq<string>, names: map<string, string>, e: WalkEntry, render: Render,
                    buckets: map<string, seq<Source>>): (r: Result<map<string, seq<Source>>>)
    requires forall k :: k in order ==> k in names && k in buckets
    ensures r.Ok? ==> r.value.Keys == buckets.Keys
  {
    if order == [] then Ok(buckets)
    else
      var k := order[0];
      var found :- Found(e, names[k], render);
      AddFound(order[1..], names, e, render, buckets[k := buckets[k] + found])
  }

  /** One step of the walk: a directory without a manifest adds nothing. */
  function ScanDir(projects: map<string, Project>, order: seq<string>, e: WalkEntry, render: Render,
                   buckets: map<string, seq<Source>>): (r: Result<map<string, seq<Source>>>)
    requires forall k :: k in order <==> k in projects
    requires buckets.Keys == projects.Keys
    ensures ManifestFile !in e.files ==> r == Ok(buckets)
    ensures ManifestFile in e.files && "folder" !in e.manifest ==> r == Err(KeyError("folder"))
    ensures r.Ok? ==> r.value.Keys == buckets.Keys
  {
    if ManifestFile !in e.files then Ok(buckets)
    else
      var names :- DirNames(projects, e);
      AddFound(order, names, e, render, buckets)
  }

  /** The walk so far, one directory at a time, from buckets seeded empty for every project. */
  function Collect(projects: map<string, Project>, order: seq<string>, walk: seq<WalkEntry>, render: Render)
    : (r: Result<map<string, seq<Source>>>)
    requires forall k :: k in order <==> k in projects
    ensures r.Ok? ==> r.value.Keys == projects.Keys
  {
    if walk == [] then Ok(map k | k in projects :: [])
    else
      var buckets :- Collect(projects, order, walk[..|walk| - 1], render);
      ScanDir(projects, order, walk[|walk| - 1], render, buckets)
  }

  /** `get_sources`: every configured project gets a bucket, possibly empty, and the
      sources are discovered directory by directory in walk order. `order` is the order
      of the configured projects, which decides which failure is raised first. */
  function GetSources(projects: map<string, Project>, order: seq<string>, walk: seq<WalkEntry>, render: Render)
    : (r: Result<map<string, seq<Source>>>)
    requires forall k :: k in order <==> k in projects
    requires forall i, j :: 0 <= i < j < |order| ==> order[i] != order[j]
    ensures r.Ok? ==> r.value.Keys == projects.Keys
    ensures (forall i :: 0 <= i < |walk| ==> ManifestFile !in walk[i].files) ==>
      r == Ok(map k | k in projects :: [])
  {
    NoManifestsNoSources(projects, order, walk, render);
    Collect(projects, order, walk, render)
  }

  lemma {:induction false} NoManifestsNoSources(projects: map<string, Project>, order: seq<string>,
                                               walk: seq<WalkEntry>, render: Render)
    requires forall k :: k in order <==> k in projects
    ensures (forall i :: 0 <= i < |walk| ==> ManifestFile !in walk[i].files) ==>
      Collect(projects, order, walk, render) == Ok(map k | k in projects :: [])
  {
    if walk != [] && forall i :: 0 <= i < |walk| ==> ManifestFile !in walk[i].files {
      NoManifestsNoSources(projects, order, walk[..|walk| - 1], render);
    }
  }

  /** What one directory adds to the bucket of project `k`, read independently of the
      order in which projects are visited. */
  function Contribution(projects: map<string, Project>, e: WalkEntry, render: Render, k: string): seq<Source> {
    if ManifestFile !in e.files then []
    else match DirNames(projects, e)
      case Err(_) => []
      case Ok(names) =>
        if k in names then
          match Found(e, names[k], render)
          case Ok(found) => found
          case Err(_) => []
        else []
  }

  /** The bucket of project `k` as the concatenation, in walk order, of what each
      directory contributes to it. */
  function Expected(projects: map<string, Project>, walk: seq<WalkEntry>, render: Render, k: string): seq<Source> {
    if walk == [] then []
    else Expected(projects, walk[..|walk| - 1], render, k) + Contribution(projects, walk[|walk| - 1], render, k)
  }

  /** Visiting the projects appends each visited one's find to its own bucket and leaves
      the others alone. */
  lemma {:induction false} AddFoundAppends(order: seq<string>, names: map<string, string>, e: WalkEntry,
                                           render: Render, buckets: map<string, seq<Source>>)
    requires forall k :: k in order ==> k in names && k in buckets
    requires forall i, j :: 0 <= i < j < |order| ==> order[i] != order[j]
    requires AddFound(order, names, e, render, buckets).Ok?
    ensures forall k :: k in buckets ==>
      && (k in order ==> Found(e, names[k], render).Ok?)
      && AddFound(order, names, e, render, buckets).value[k]
           == buckets[k] + (if k in order then Found(e, names[k], render).value else [])
  {
    if order != [] {
      var k0 := order[0];
      var found := Found(e, names[k0], render).value;
      var next := buckets[k0 := buckets[k0] + found];
      AddFoundAppends(order[1..], names, e, render, next);
      forall k | k in buckets
        ensures k in order[1..] <==> k in order && k != k0
      {
        if k in order && k != k0 {
          var i :| 0 <= i < |order| && order[i] == k;
          assert order[1..][i - 1] == k;
        }
      }
    }
  }

  /** Each directory's step appends its contribution to every bucket. */
  lemma ScanDirAppends(projects: map<string, Project>, order: seq<string>, e: WalkEntry, render: Render,
                       buckets: map<string, seq<Source>>)
    requires forall k :: k in order <==> k in projects
    requires forall i, j :: 0 <= i < j < |order| ==> order[i] != order[j]
    requires buckets.Keys == projects.Keys
    requires ScanDir(projects, order, e, render, buckets).Ok?
    ensures forall k :: k in projects ==>
      ScanDir(projects, order, e, render, buckets).value[k] == buckets[k] + Contribution(projects, e, render, k)
  {
    if ManifestFile in e.files {
      var names := DirNames(projects, e).value;
      AddFoundAppends(order, names, e, render, buckets);
    }
  }

  /** A successful discovery fills every bucket with exactly the project's sources, in
      walk order. */
  lemma {:induction false} GetSourcesIsExpected(projects: map<string, Project>, order: seq<string>,
                                                walk: seq<WalkEntry>, render: Render)
    requires forall k :: k in order <==> k in projects
    requires forall i, j :: 0 <= i < j < |order| ==> order[i] != order[j]
    requires GetSources(projects, order, walk, render).Ok?
    ensures forall k :: k in projects ==>
      GetSources(projects, order, walk, render).value[k] == Expected(projects, walk, render, k)
  {
    CollectIsExpected(projects, order, walk, render);
  }

  lemma {:induction false} CollectIsExpected(projects: map<string, Project>, order: seq<string>,
                                             walk: seq<WalkEntry>, render: Render)
    requires forall k :: k in order <==> k in projects
    requires forall i, j :: 0 <= i < j < |order| ==> order[i] != order[j]
    requires Collect(projects, order, walk, render).Ok?
    ensures forall k :: k in projects ==>
      Collect(projects, order, walk, render).value[k] == Expected(projects, walk, render, k)
  {
    if walk != [] {
      var prefix := walk[..|walk| - 1];
      CollectIsExpected(projects, order, prefix, render);
      var buckets := Collect(projects, order, prefix, render).value;
      ScanDirAppends(projects, order, walk[|walk| - 1], render, buckets);
    }
  }

  /** Every source found for a project is that project's expected file in a manifest
      directory of the walk: its file is listed there, it lives there, and its language
      is the directory's name. */
  lemma {:induction false} ExpectedSourcesAreListed(projects: map<string, Project>, walk: seq<WalkEntry>,
                                                    render: Render, k: string, s: Source)
    requires s in Expected(projects, walk, render, k)
    ensures exists i :: 0 <= i < |walk| && ListedIn(projects, walk[i], k, s)
  {
    if walk != [] {
      var prefix := walk[..|walk| - 1];
      if s in Expected(projects, prefix, render, k) {
        ExpectedSourcesAreListed(projects, prefix, render, k, s);
        var i :| 0 <= i < |prefix| && ListedIn(projects, prefix[i], k, s);
        assert walk[i] == prefix[i];
      } else {
        var e := walk[|walk| - 1];
        assert s in Contribution(projects, e, render, k);
        assert ListedIn(projects, e, k, s);
      }
    }
  }

  /** `s` is the source a manifest directory `e` holds for project `k`. */
  ghost predicate ListedIn(projects: map<string, Project>, e: WalkEntry, k: string, s: Source) {
    && ManifestFile in e.files
    && DirNames(projects, e).Ok?
    && k in DirNames(projects, e).value
    && s.fileName == DirNames(projects, e).value[k]
    && s.fileName in e.files
    && s.path == e.path
    && s.language == Basename(e.path)
  }

  /** A directory adds at most one source to each project. */
  lemma ContributionIsAtMostOne(projects: map<string, Project>, e: WalkEntry, render: Render, k: string)
    ensures |Contribution(projects, e, render, k)| <= 1
  {
  }

  /** A directory the walk gets through: unless it has no `testinfo.yml`, its manifest
      has a valid `folder` section, and the manifest rendered for every project's
      expected file that is present reads as valid test information. */
  ghost predicate Discoverable(projects: map<string, Project>, e: WalkEntry, render: Render) {
    ManifestFile in e.files ==>
      && DirNames(projects, e).Ok?
      && forall k :: k in projects && DirNames(projects, e).value[k] in e.files ==>
           TestInfoFromDict(render(e.path, DirNames(projects, e).value[k])).Ok?
  }

  /** Visiting the projects succeeds exactly when every visited project's find does. */
  lemma {:induction false} AddFoundSucceeds(order: seq<string>, names: map<string, string>, e: WalkEntry,
                                            render: Render, buckets: map<string, seq<Source>>)
    requires forall k :: k in order ==> k in names && k in buckets
    ensures AddFound(order, names, e, render, buckets).Ok? <==>
      forall k :: k in order ==> Found(e, names[k], render).Ok?
  {
    if order != [] {
      var k0 := order[0];
      assert forall k :: k in order <==> k == k0 || k in order[1..];
      if Found(e, names[k0], render).Ok? {
        AddFoundSucceeds(order[1..], names, e, render,
                         buckets[k0 := buckets[k0] + Found(e, names[k0], render).value]);
      }
    }
  }

  /** A directory's step succeeds exactly when the directory is discoverable. */
  lemma ScanDirSucceeds(projects: map<string, Project>, order: seq<string>, e: WalkEntry, render: Render,
                        buckets: map<string, seq<Source>>)
    requires forall k :: k in order <==> k in projects
    requires buckets.Keys == projects.Keys
    ensures ScanDir(projects, order, e, render, buckets).Ok? <==> Discoverable(projects, e, render)
  {
    if ManifestFile in e.files && DirNames(projects, e).Ok? {
      AddFoundSucceeds(order, DirNames(projects, e).value, e, render, buckets);
    }
  }

  /** `get_sources` succeeds exactly when every directory of the walk is discoverable:
      it fails on a manifest without a valid `folder` section, or on a present expected
      file whose rendered manifest does not read as test information. */
  lemma {:induction false} GetSourcesSucceeds(projects: map<string, Project>, order: seq<string>,
                                              walk: seq<WalkEntry>, render: Render)
    requires forall k :: k in order <==> k in projects
    requires forall i, j :: 0 <= i < j < |order| ==> order[i] != order[j]
    ensures GetSources(projects, order, walk, render).Ok? <==>
      forall i :: 0 <= i < |walk| ==> Discoverable(projects, walk[i], render)
  {
    CollectSucceeds(projects, order, walk, render);
  }

  lemma {:induction false} CollectSucceeds(projects: map<string, Project>, order: seq<string>,
                                           walk: seq<WalkEntry>, render: Render)
    requires forall k :: k in order <==> k in projects
    ensures Collect(projects, order, walk, render).Ok? <==>
      forall i :: 0 <= i < |walk| ==> Discoverable(projects, walk[i], render)
  {
    if walk != [] {
      var prefix := walk[..|walk| - 1];
      CollectSucceeds(projects, order, prefix, render);
      assert forall i :: 0 <= i < |prefix| ==> prefix[i] == walk[i];
      var before := Collect(projects, order, prefix, render);
      if before.Ok? {
        ScanDirSucceeds(projects, order, walk[|walk| - 1], render, before.value);
      }
    }
  }

  /** Whatever a directory contributes to a project is in that project's reference
      bucket. */
  lemma {:induction false} ContributionIsExpected(projects: map<string, Project>, walk: seq<WalkEntry>,
                                                  render: Render, k: string, i: nat)
    requires i < |walk|
    ensures forall s :: s in Contribution(projects, walk[i], render, k) ==> s in Expected(projects, walk, render, k)
  {
    var prefix := walk[..|walk| - 1];
    if i < |walk| - 1 {
      ContributionIsExpected(projects, prefix, render, k, i);
      assert prefix[i] == walk[i];
    }
  }

  /** Every expected file present in a manifest directory is found: after a successful
      discovery the directory's `folder` section was read, and the project's bucket
      holds a source for its expected file, located in that directory and with that
      directory's name as language. */
  lemma ListedFilesAreFound(projects: map<string, Project>, order: seq<string>, walk: seq<WalkEntry>,
                            render: Render, i: nat, k: string)
    requires forall k :: k in order <==> k in projects
    requires forall i, j :: 0 <= i < j < |order| ==> order[i] != order[j]
    requires i < |walk|
    ensures var r := GetSources(projects, order, walk, render);
      r.Ok? && ManifestFile in walk[i].files && k in projects ==>
        && DirNames(projects, walk[i]).Ok?
        && var name := DirNames(projects, walk[i]).value[k];
           name in walk[i].files ==>
             exists s :: s in r.value[k] && s.path == walk[i].path && s.fileName == name
                         && s.language == Basename(walk[i].path)
  {
    var r := GetSources(projects, order, walk, render);
    if r.Ok? && ManifestFile in walk[i].files && k in projects {
      GetSourcesSucceeds(projects, order, walk, render);
      assert Discoverable(projects, walk[i], render);
      var name := DirNames(projects, walk[i]).value[k];
      if name in walk[i].files {
        GetSourcesIsExpected(projects, order, walk, render);
        ContributionIsExpected(projects, walk, render, k, i);
        var found := Found(walk[i], name, render).value;
        assert Contribution(projects, walk[i], render, k) == found;
        assert found[0] in r.value[k];
      }
    }
  }
}
