/** The per-directory manifest (`testinfo.yml`) as objects built from already-parsed
    YAML mappings: the container section, the folder section, and the two together. */
module TestInfo {
  import opened Text
  import opened Outcomes
  import opened Naming
  import ModelsProject

  /** A parsed YAML mapping of one manifest section. */
  type Dict = map<string, string>

  datatype ContainerInfo = ContainerInfo(image: string, tag: string, cmd: string, build: Option<string>)

  datatype FolderInfo = FolderInfo(extension: string, naming: NamingScheme)

  datatype TestInfo = TestInfo(containerInfo: ContainerInfo, folderInfo: FolderInfo)

  /** The keys `ContainerInfo.from_dict` reads. */
  const ContainerKeys: set<string> := {"image", "tag", "cmd", "build"}

  /** The keys `FolderInfo.from_dict` reads. */
  const FolderKeys: set<string> := {"extension", "naming"}

  function Restrict(d: Dict, keys: set<string>): Dict {
    map k | k in d && k in keys :: d[k]
  }

  /** `ContainerInfo.from_dict`: `image`, `tag` and `cmd` are required and read in that
      order; `build` is taken when present. Every other key is ignored. */
  function ContainerInfoFromDict(d: Dict): (r: Result<ContainerInfo>)
    ensures r.Ok? <==> "image" in d && "tag" in d && "cmd" in d
    ensures "image" !in d ==> r == Err(KeyError("image"))
    ensures "image" in d && "tag" !in d ==> r == Err(KeyError("tag"))
    ensures "image" in d && "tag" in d && "cmd" !in d ==> r == Err(KeyError("cmd"))
    ensures r.Ok? ==> ContainerInfoToDict(r.value) == Restrict(d, ContainerKeys)
  {
    if "image" !in d then Err(KeyError("image"))
    else if "tag" !in d then Err(KeyError("tag"))
    else if "cmd" !in d then Err(KeyError("cmd"))
    else
      var c := ContainerInfo(d["image"], d["tag"], d["cmd"], if "build" in d then Some(d["build"]) else None);
      assert ContainerInfoToDict(c) == Restrict(d, ContainerKeys);
      Ok(c)
  }

  /** The section a `ContainerInfo` is read from: `build` appears only when set. */
  function ContainerInfoToDict(c: ContainerInfo): Dict {
    map["image" := c.image, "tag" := c.tag, "cmd" := c.cmd]
    + (if c.build.Some? then map["build" := c.build.value] else map[])
  }

  lemma ContainerInfoRoundTrip(c: ContainerInfo)
    ensures ContainerInfoFromDict(ContainerInfoToDict(c)) == Ok(c)
  {
  }

  /** `ContainerInfo.__eq__`: all four fields are compared. */
  function ContainerInfoEquals(a: ContainerInfo, b: ContainerInfo): (r: bool)
    ensures r <==> a == b
  {
    a.image == b.image && a.cmd == b.cmd && a.tag == b.tag && a.build == b.build
  }

  /** `FolderInfo.__init__`: the naming must be one of the five scheme names. */
  function NewFolderInfo(extension: string, naming: string): (r: Result<FolderInfo>)
    ensures r.Ok? <==> naming in {"hyphen", "underscore", "camel", "pascal", "lower"}
    ensures r.Ok? ==> r.value.extension == extension && NamingSchemeName(r.value.naming) == naming
    ensures r.Err? ==> r.error == KeyError("Unknown naming scheme: \"" + naming + "\"")
  {
    match ParseNamingScheme(naming)
    case Ok(s) => Ok(FolderInfo(extension, s))
    case Err(_) => Err(KeyError("Unknown naming scheme: \"" + naming + "\""))
  }

  /** `FolderInfo.from_dict`: `extension` then `naming` are required. */
  function FolderInfoFromDict(d: Dict): (r: Result<FolderInfo>)
    ensures "extension" !in d ==> r == Err(KeyError("extension"))
    ensures "extension" in d && "naming" !in d ==> r == Err(KeyError("naming"))
    ensures "extension" in d && "naming" in d ==> r == NewFolderInfo(d["extension"], d["naming"])
  {
    if "extension" !in d then Err(KeyError("extension"))
    else if "naming" !in d then Err(KeyError("naming"))
    else NewFolderInfo(d["extension"], d["naming"])
  }

  /** The section a `FolderInfo` is read from. */
  function FolderInfoToDict(f: FolderInfo): Dict {
    map["extension" := f.extension, "naming" := NamingSchemeName(f.naming)]
  }

  /** Reading a folder section back gives the same object, and an accepted section is
      the written form of what was read, on the keys that are read. */
  lemma FolderInfoRoundTrip(f: FolderInfo, d: Dict)
    ensures FolderInfoFromDict(FolderInfoToDict(f)) == Ok(f)
    ensures FolderInfoFromDict(d).Ok? ==> FolderInfoToDict(FolderInfoFromDict(d).value) == Restrict(d, FolderKeys)
  {
    match f.naming
    case Hyphen =>
    case Underscore =>
    case Camel =>
    case Pascal =>
    case Lower =>
  }

  /** `FolderInfo.__eq__` */
  function FolderInfoEquals(a: FolderInfo, b: FolderInfo): (r: bool)
    ensures r <==> a == b
  {
    a.extension == b.extension && a.naming == b.naming
  }

  /** `get_project_mappings`, with the configured projects passed in: every project's
      name under the folder's scheme, followed by the extension when asked. Building
      the mapping names every project, so one project without words fails it. */
  function GetProjectMappings(f: FolderInfo, projects: map<string, Project>, includeExtension: bool)
    : (r: Result<map<string, string>>)
    ensures r.Err? <==> exists k :: k in projects && |projects[k].words| == 0
    ensures r.Err? ==> r.error == IndexError
    ensures r.Ok? ==> r.value.Keys == projects.Keys
  {
    if exists k :: k in projects && |projects[k].words| == 0 then Err(IndexError)
    else
      var extension := if includeExtension then f.extension else "";
      Ok(map k | k in projects :: ModelsProject.NameByScheme(projects[k], f.naming).value + extension)
  }

  /** Every mapped name is the project's name spelled as the scheme prescribes (up to
      letter case), followed by the extension exactly when it is asked for. */
  lemma MappingSpelling(f: FolderInfo, projects: map<string, Project>, includeExtension: bool, k: string)
    requires GetProjectMappings(f, projects, includeExtension).Ok?
    requires k in projects
    ensures var v := GetProjectMappings(f, projects, includeExtension).value[k];
      var e := if includeExtension then f.extension else "";
      && |v| >= |e|
      && v[|v| - |e|..] == e
      && ModelsProject.NameByScheme(projects[k], f.naming).Ok?
      && v[..|v| - |e|] == ModelsProject.NameByScheme(projects[k], f.naming).value
      && ToLower(v[..|v| - |e|]) == Spelling(projects[k].words, f.naming)
  {
    ModelsProject.NameCaseOnly(projects[k], f.naming);
    var n := ModelsProject.NameByScheme(projects[k], f.naming).value;
    var e := if includeExtension then f.extension else "";
    assert (n + e)[..|n|] == n;
  }

  /** Asking for the extension appends it to every name and changes nothing else. */
  lemma MappingsWithExtension(f: FolderInfo, projects: map<string, Project>)
    requires GetProjectMappings(f, projects, false).Ok?
    ensures GetProjectMappings(f, projects, true).Ok?
    ensures forall k :: k in projects ==>
      GetProjectMappings(f, projects, true).value[k]
        == GetProjectMappings(f, projects, false).value[k] + f.extension
  {
  }

  /** `TestInfo.from_dict`: the `container` section is read before the `folder` one, so
      its failure is the one raised even when `folder` is missing too. */
  function TestInfoFromDict(d: map<string, Dict>): (r: Result<TestInfo>)
    ensures r.Ok? <==> && "container" in d && ContainerInfoFromDict(d["container"]).Ok?
                       && "folder" in d && FolderInfoFromDict(d["folder"]).Ok?
    ensures "container" !in d ==> r == Err(KeyError("container"))
    ensures "container" in d && ContainerInfoFromDict(d["container"]).Err? ==>
      r == Err(ContainerInfoFromDict(d["container"]).error)
    ensures "container" in d && ContainerInfoFromDict(d["container"]).Ok? && "folder" !in d ==>
      r == Err(KeyError("folder"))
    ensures ("container" in d && ContainerInfoFromDict(d["container"]).Ok? && "folder" in d
             && FolderInfoFromDict(d["folder"]).Err?) ==> r == Err(FolderInfoFromDict(d["folder"]).error)
    ensures r.Ok? ==> r.value == TestInfo(ContainerInfoFromDict(d["container"]).value,
                                          FolderInfoFromDict(d["folder"]).value)
  {
    if "container" !in d then Err(KeyError("container"))
    else
      var c :- ContainerInfoFromDict(d["container"]);
      if "folder" !in d then Err(KeyError("folder"))
      else
        var f :- FolderInfoFromDict(d["folder"]);
        Ok(TestInfo(c, f))
  }

  function TestInfoToDict(t: TestInfo): map<string, Dict> {
    map["container" := ContainerInfoToDict(t.containerInfo), "folder" := FolderInfoToDict(t.folderInfo)]
  }

  lemma TestInfoRoundTrip(t: TestInfo)
    ensures TestInfoFromDict(TestInfoToDict(t)) == Ok(t)
  {
    ContainerInfoRoundTrip(t.containerInfo);
    FolderInfoRoundTrip(t.folderInfo, map[]);
  }

  /** `TestInfo.__eq__`: component-wise. */
  function TestInfoEquals(a: TestInfo, b: TestInfo): (r: bool)
    ensures r <==> a == b
  {
    ContainerInfoEquals(a.containerInfo, b.containerInfo) && FolderInfoEquals(a.folderInfo, b.folderInfo)
  }
}
