# Glotter core in Dafny

Glotter is a test harness for sample-program repositories. Each language directory
holds a `testinfo.yml` manifest, with a container section (image, tag, run command,
optional build command) and a folder section (source extension, file naming scheme).
Each configured project has an expected file name under every naming scheme. Glotter
derives those names, discovers the sources a directory walk finds, runs them in
per-source Docker containers, and reports which language implements which project.

This project models that core as pure functions over immutable data. It proves what
each operation promises.

- `text.dfy` (`Text`): ASCII `upper`/`lower`/`title`, `join` and `rfind`.
- `outcomes.dfy` (`Outcomes`): `Option`, and `Result` with one `Error` constructor per
  Python exception raised: `KeyError`, `IndexError`, `ValueError`, `RuntimeError`, and
  an engine failure.
- `naming.dfy` (`Naming`): the two enums, the project record, `Project.__eq__`, and the
  five renderers plus the display name. Each renderer takes the per-word acronym casing
  as a parameter.
- `legacy_project.dfy` (`LegacyProject`): `glotter/project.py`. Its default policy is
  `upper`, and its `two_letter_limit` ignores the scheme.
- `models_project.dfy` (`ModelsProject`): `glotter/models/project.py`. Its default
  policy is `two_letter_limit`, which upper-cases only in camel and pascal names. The
  module also holds lemmas comparing it with the legacy variant and the unit-test rows.
- `project_helpers.dfy` (`ProjectHelpers`): `enum_from_string`.
- `testinfo.dfy` (`TestInfo`): `ContainerInfo`, `FolderInfo` and `TestInfo`. They are
  built from already-parsed mappings, with write-back functions and round trips.
- `paths.dfy` (`Paths`): `os.path.join`, `basename` and `splitext`. `splitext` is
  characterised by where an extension may start.
- `docker.dfy` (`Docker`): the container engine as inspectable state. It holds the
  local images, the registry, and the containers. A container's handle is its index.
- `containerfactory.dfy` (`ContainerFactory`): the factory as a state machine. Each
  operation maps a world (tables, engine, host temp dirs) to the world afterwards plus
  a result. A raised exception keeps the changes made before it.
- `source.dfy` (`Sources`): source names and paths, `build`/`run`/`exec`/`cleanup`,
  and the matching core of `get_sources` over a walk given as data.
- `report.dfy` (`Report`): the table logic of `glotter/report.py`. This covers row
  aggregation, column widths and the language-column width.

Things the program takes from its environment are parameters of the model:

- the fresh temporary directory and the UUID hex string;
- the exit code and output of an executed command;
- the directory walk;
- the per-source rendered manifest;
- the project catalog and its key order.

## Model

| member | source | states |
|---|---|---|
| Naming.ParseNamingScheme | glotter/models/testinfo.py:85-88 | Success names the scheme looked up; failure is a `KeyError` carrying the name, and no scheme has that name |
| Naming.ProjectEquals | glotter/models/project.py:102-106 | Two projects are equal exactly when words, parameter flag, stored acronyms and policy all agree |
| Naming.AcronymMatchIgnoresCase | glotter/models/project.py:88-89 | An upper-cased word is among the upper-cased acronyms exactly when some acronym equals it ignoring case |
| Naming.NameByScheme | glotter/models/project.py:58-67 | Every rendering is built eagerly, so the result fails exactly when there are no words, always with `IndexError` |
| Naming.NameCaseOnly | glotter/models/project.py:58-83 | For any casing that only changes letter case, a name is its scheme's reference spelling up to case: lower-cased words joined by `-`, `_` or nothing |
| Naming.AsHyphenCaseOnly | glotter/models/project.py:69-70 | For a casing that only changes letter case, `_as_hyphen` (`Naming.AsHyphen`) is the lower-cased words joined by `-`, up to case |
| Naming.AsUnderscoreCaseOnly | glotter/models/project.py:72-73 | For such a casing, `_as_underscore` (`Naming.AsUnderscore`) is the lower-cased words joined by `_`, up to case |
| Naming.AsCamelCaseOnly | glotter/models/project.py:75-77 | For such a casing, `_as_camel` (`Naming.AsCamel`) is the concatenated lower-cased words up to case, and begins with the lower-cased first word |
| Naming.AsPascalCaseOnly | glotter/models/project.py:79-80 | For such a casing, `_as_pascal` (`Naming.AsPascal`) is the concatenated lower-cased words, up to case |
| Naming.AsLowerIsLowerCase | glotter/models/project.py:82-83 | `_as_lower` (`Naming.AsLower`) holds no upper-case letter, whatever the words |
| Naming.AsDisplayCaseOnly | glotter/models/project.py:85-86 | For such a casing, `_as_display` (`Naming.AsDisplay`) is the lower-cased words joined by spaces, up to case |
| Naming.IsAcronymIgnoresCase | glotter/project.py:74-75 | `_is_acronym` (`Naming.IsAcronym`) gives the same answer for words equal ignoring case, and is false without acronyms |
| Naming.VerbatimSeparated | glotter/models/project.py:69-86 | A casing that leaves words alone makes hyphen and underscore names plain joins of the words, and the display name the space-joined title-cased words |
| Naming.VerbatimWordCased | glotter/models/project.py:75-80 | A casing that leaves words alone makes pascal the title-cased words concatenated, and camel the lower-cased head followed by the title-cased rest |
| Naming.CamelIsLowerHeadThenPascal | glotter/models/project.py:75-80 | When camel and pascal case words alike, camel is the lower-cased first word followed by the pascal name of the other words |
| Text.ToTitle | glotter/models/project.py:76 | A letter at the start or after a non-letter is upper-cased, every other letter is lower-cased, and the length is kept |
| LegacyProject.New | glotter/project.py:19-23 | Acronyms are stored upper-cased; a missing policy becomes `upper` |
| LegacyProject.TryAsAcronym | glotter/project.py:77-86 | Only letter case changes, so an acronym stays one; a non-acronym is returned unchanged; under `upper` an acronym is upper-cased and under `lower` it has no upper-case letter |
| LegacyProject.NameByScheme | glotter/project.py:41-57 | The name fails exactly for an empty word list |
| LegacyProject.CasingKeepsLetters | glotter/project.py:77-86 | Acronym casing changes letter case only, and a word that is not an acronym is returned unchanged |
| LegacyProject.NameCaseOnly | glotter/project.py:59-72 | Every name equals the scheme's reference spelling up to letter case |
| LegacyProject.AcronymsMatchIgnoringCase | glotter/project.py:74-75 | A word is an acronym exactly when it matches a given acronym ignoring case on both sides |
| LegacyProject.NoAcronymsArePlain | glotter/project.py:59-72 | Without acronyms: hyphen and underscore join the words verbatim, pascal concatenates title-cased words, camel lower-cases the head, lower concatenates the lower-cased words |
| LegacyProject.TwoLetterLimitIgnoresScheme | glotter/project.py:83-86 | Under `two_letter_limit` an acronym of at most two letters is upper-cased in every scheme, and a longer one is kept |
| LegacyProject.SingleAcronymRow | test/unit/test_project.py:28-38 | `["io"]` with acronym `IO` gives `IO`, `IO`, `io`, `IO`, `io` for hyphen, underscore, camel, pascal and lower |
| LegacyProject.AcronymAtFrontRow | test/unit/test_project.py:39-49 | `["io", "word"]` gives `IO-word`, `IO_word`, `ioWord`, `IOWord`, `ioword` |
| LegacyProject.SameAcronymTwiceRow | test/unit/test_project.py:72-82 | `["io", "word", "io"]` with acronym `io` gives `IO-word-IO`, `IO_word_IO`, `ioWordIO`, `IOWordIO`, `iowordio` |
| LegacyProject.AcronymsTogetherRow | test/unit/test_project.py:94-105 | `["word", "io", "ui"]` with acronyms `ui` and `io` gives `word-IO-UI`, `word_IO_UI`, `wordIOUI`, `WordIOUI`, `wordioui` |
| ModelsProject.New | glotter/models/project.py:22-29 | Acronyms are stored upper-cased; a missing policy becomes `two_letter_limit` |
| ModelsProject.TryAsAcronym | glotter/models/project.py:91-100 | Only letter case changes, so an acronym stays one; a non-acronym is returned unchanged; `two_letter_limit` never changes a hyphen or underscore word; under `lower` an acronym has no upper-case letter |
| ModelsProject.NameByScheme | glotter/models/project.py:51-67 | The name fails exactly for an empty word list |
| ModelsProject.CasingKeepsLetters | glotter/models/project.py:91-100 | Acronym casing changes letter case only |
| ModelsProject.NameCaseOnly | glotter/models/project.py:69-83 | Every name equals the scheme's reference spelling up to letter case |
| ModelsProject.DisplayName | glotter/models/project.py:47-49 | The display name is the words joined by single spaces, up to letter case |
| ModelsProject.AcronymsMatchIgnoringCase | glotter/models/project.py:88-89 | A word is an acronym exactly when it matches a given acronym ignoring case |
| ModelsProject.TwoLetterLimitKeepsSeparatedWords | glotter/models/project.py:97-99 | Under `two_letter_limit`: hyphen and underscore names join the words verbatim, and the display name is only title-cased |
| ModelsProject.NoAcronymsArePlain | glotter/models/project.py:69-86 | Without acronyms every scheme (lower included), and the display name, uses its plain casing of the words |
| ModelsProject.CamelIsLowerHeadThenPascal | glotter/models/project.py:75-80 | Camel is the lower-cased first word followed by the pascal name of the remaining words |
| ModelsProject.CasingIgnoresSchemeOutsideTwoLetterLimit | glotter/models/project.py:91-100 | Under `upper` or `lower` an acronym is cased alike in every scheme (upper- or lower-cased); a non-acronym is never changed |
| ModelsProject.LowerIgnoresAcronyms | glotter/models/project.py:82-83 | Projects with the same words have the same lower name, the concatenated lower-cased words |
| ModelsProject.CasingAgreesWithLegacy | glotter/models/project.py:91-100 | The two variants case a word alike except under `two_letter_limit` outside camel and pascal |
| ModelsProject.AgreesWithLegacy | glotter/models/project.py:51-86 | The two variants name a project alike except under `two_letter_limit` in hyphen and underscore |
| ModelsProject.FileIoRow | glotter/models/project.py:97-99 | `["file", "io"]` with acronym `io` and no policy gives `file-io`, `FileIO` and `fileIO` |
| ModelsProject.FileIoRowLegacy | glotter/project.py:83-86 | The same project in the legacy variant gives `file-IO` for hyphen |
| ProjectHelpers.EnumFromString | glotter/projecthelpers.py:1-5 | Returns the first member in declaration order whose lower-cased name equals the input; fails with `KeyError` exactly when none does; an input with an upper-case letter never matches |
| ProjectHelpers.NamingSchemeLookupsAgree | glotter/projecthelpers.py:1-5 | Over the naming schemes, a first lower-cased match exists exactly when `NamingScheme[name]` succeeds, and it is the same member |
| ProjectHelpers.AcronymSchemeLookupFindsMember | glotter/projecthelpers.py:1-5 | Over the acronym schemes, each member's own name finds that member |
| TestInfo.ContainerInfoFromDict | glotter/models/testinfo.py:49-65 | Succeeds exactly when `image`, `tag` and `cmd` are present; missing keys fail in that order; the result written back equals the input restricted to the four keys |
| TestInfo.ContainerInfoRoundTrip | glotter/models/testinfo.py:49-65 | Reading back a written container section gives the same object, with or without a build command |
| TestInfo.ContainerInfoEquals | glotter/models/testinfo.py:67-71 | Equal exactly when all four fields are equal |
| TestInfo.NewFolderInfo | glotter/models/testinfo.py:77-88 | Accepts exactly the five scheme names and keeps the extension; otherwise fails with `KeyError('Unknown naming scheme: "<name>"')` |
| TestInfo.FolderInfoFromDict | glotter/models/testinfo.py:119-126 | Missing `extension`, then missing `naming`, fail with `KeyError`; otherwise the result is the constructor applied to the two values |
| TestInfo.FolderInfoRoundTrip | glotter/models/testinfo.py:119-126 | Reading back a written folder section gives the same object; an accepted section is the written form of what was read |
| TestInfo.FolderInfoEquals | glotter/models/testinfo.py:114-116 | Equal exactly when extension and scheme are equal |
| TestInfo.GetProjectMappings | glotter/models/testinfo.py:100-112 | One entry per configured project; fails with `IndexError` exactly when some project has no words |
| TestInfo.MappingSpelling | glotter/models/testinfo.py:108-110 | Each value is the project's exact name under the folder's scheme, followed by the extension exactly when asked; that name is the scheme's reference spelling up to letter case |
| TestInfo.MappingsWithExtension | glotter/models/testinfo.py:108-110 | Asking for the extension appends it to every name and changes nothing else |
| TestInfo.TestInfoFromDict | glotter/models/testinfo.py:153-163 | Succeeds exactly when both sections are present and valid. A missing or invalid container section is the error raised, even if `folder` is missing too. Then a missing `folder` is `KeyError("folder")`, and an invalid one raises its own error. The result pairs the two parsed sections |
| TestInfo.TestInfoRoundTrip | glotter/models/testinfo.py:153-163 | Reading back a written manifest gives the same object |
| TestInfo.TestInfoEquals | glotter/models/testinfo.py:179-181 | Equal exactly when both components are equal |
| Paths.Splitext | glotter/models/source.py:41-54 | Root and extension put together give the path; a non-empty extension starts at a dot with no dot or separator after it and a non-dot character before it in the last component; an empty extension means no such dot exists |
| Paths.ExtensionIsLastDot | glotter/models/source.py:41-54 | A dot that can start an extension is the last dot, after the last separator, with a non-dot character between them |
| Paths.SplitextExamples | test/test_source.py:17-36 | `name`, `name.ext`, `name.name2.ext` and `.bashrc` split as the tests expect |
| Paths.BasenameOfJoin | glotter/models/source.py:31-34 | A file name without separators joined onto a directory is the last component of the result |
| Paths.PathJoinParts | glotter/models/source.py:34 | `os.path.join`: an absolute second part replaces the first; otherwise the result is the first part, then a separator unless the first part is empty or ends in one, then the second part |
| Paths.BasenameIsLastComponent | glotter/models/source.py:135 | `os.path.basename` is the longest separator-free suffix of the path |
| Docker.ListImages | glotter/containerfactory.py:59 | Lists every local entry equal to the reference and nothing else: as many entries as the local list holds copies of it |
| Docker.Pull | glotter/containerfactory.py:65-70 | Fails exactly when the registry lacks the image; afterwards the image is listed once if it was missing, images under other references and the containers are unchanged |
| Docker.RunContainer | glotter/containerfactory.py:41-48 | The new container is appended and gets the next handle |
| Docker.ExecRun | glotter/models/source.py:108-112 | The call is appended to that container's history, everything else about that container is unchanged, and so is every other container |
| Docker.RemoveContainer | glotter/containerfactory.py:89 | That container is marked removed with nothing else about it changed, and every other container is unchanged |
| ContainerFactory.EmptyIsValid | glotter/containerfactory.py:19-20 | A fresh factory with empty tables satisfies the table invariant |
| ContainerFactory.GetImage | glotter/containerfactory.py:51-78 | An image listed once is returned with no pull. Otherwise the engine afterwards is the pulled one, the call failing exactly when the registry lacks the image; the image is returned only if now listed once, else nothing. An image missing locally but in the registry is fetched and returned |
| ContainerFactory.GetImageSettles | glotter/containerfactory.py:59-60 | Once an image has been resolved, resolving it again finds it locally, pulls nothing and leaves the engine as it is |
| ContainerFactory.GetContainer | glotter/containerfactory.py:24-49 | Every call records a fresh temp dir holding the file as the workspace; an existing handle is reused; otherwise a container is started (`sleep 1h`, `/src`, detached, the new dir bound read-write at `/src`, named after the source); the call fails exactly when image resolution fails or there is no image for a new container |
| ContainerFactory.Cleanup | glotter/containerfactory.py:80-93 | With no container the result is `KeyError` and nothing changes; otherwise the container is force-removed, the workspace dir deleted, and both entries dropped, with all other entries kept |
| ContainerFactory.GetContainerPreservesValid | glotter/containerfactory.py:24-49 | Acquiring keeps the tables consistent: containers live and owned by one source each, workspaces existing and distinct |
| ContainerFactory.CleanupPreservesValid | glotter/containerfactory.py:80-93 | Cleanup keeps the tables consistent, and under them always succeeds for a source that has a container |
| ContainerFactory.AcquireTwiceReuses | glotter/containerfactory.py:40-49 | A second acquisition for the same source returns the same handle and starts no container, yet both temp dirs exist |
| ContainerFactory.CleanupTwiceFails | glotter/containerfactory.py:89-93 | A second cleanup of the same source is a `KeyError` that changes nothing |
| ContainerFactory.ReacquireLeaksMountedWorkspace | glotter/containerfactory.py:34-36 | After acquiring twice and cleaning up, the directory mounted in the container is still on the host; only the second directory is deleted |
| ContainerFactory.OtherSourcesUntouched | glotter/containerfactory.py:24-93 | Acquiring or cleaning up one source leaves every other source's table entries as they were |
| Sources.NameAndExtension | glotter/models/source.py:41-54 | Name followed by extension is the file name; the extension is empty exactly when the file name has none, and otherwise starts with a dot |
| Sources.FullPathEndsInFileName | glotter/models/source.py:31-34 | The full path's last component is the file name |
| Sources.FullPathExample | test/unit/test_source.py:9-13 | `name` in `this/is/a/path` has full path `this/is/a/path/name` |
| Sources.FullPathParts | glotter/models/source.py:31-34 | The full path ends in the file name and, for a relative file name, starts with the source's directory |
| Sources.NameIsRoot | glotter/models/source.py:41-44 | The name is a prefix of the file name, the whole of it exactly when the file name has no extension |
| Sources.ExtensionIsSuffix | glotter/models/source.py:51-54 | The extension is a suffix of the file name, empty or starting at the dot that begins its extension |
| Sources.ContainerExec | glotter/models/source.py:100-112 | Fails exactly when container acquisition fails; otherwise the command ran last in the source's container, in the foreground from `/src`, and the engine's result is returned |
| Sources.ContainerExecPreservesValid | glotter/models/source.py:100-112 | Running a command keeps the factory's tables consistent: the container used stays live |
| Sources.Build | glotter/models/source.py:64-76 | Without a build command nothing happens; otherwise `build + " " + params` runs, and the build fails exactly on acquisition failure or a non-zero exit code, raising `RuntimeError` with the command and the output |
| Sources.Run | glotter/models/source.py:78-88 | Runs `cmd + " " + params`, with none meaning empty, and returns the output whatever the exit code |
| Sources.RunWithoutParams | glotter/models/source.py:85 | Running with no parameters equals running with empty parameters |
| Sources.Exec | glotter/models/source.py:90-98 | Runs the command as given and returns the output whatever the exit code |
| Sources.Cleanup | glotter/models/source.py:114-116 | After a successful cleanup the source's full path is in neither table; with no container it is a `KeyError` that changes nothing |
| Sources.CommandsPreserveValid | glotter/models/source.py:64-98 | `build`, `run` and `exec` keep the factory's tables consistent |
| Sources.DirNames | glotter/models/source.py:132-133 | A manifest without a `folder` section fails with `KeyError`; the mapping has one name per project |
| Sources.Found | glotter/models/source.py:135-137 | A file that is not listed yields nothing; a listed one fails exactly when its rendered manifest is not valid test information, and otherwise yields one source with that name, the directory as path, and the directory's basename as language |
| Sources.AddFound | glotter/models/source.py:134-137 | Visiting the projects adds or drops no bucket; each bucket's new contents are stated by `Sources.AddFoundAppends` |
| Sources.ScanDir | glotter/models/source.py:129-137 | A directory without `testinfo.yml` adds nothing; one without a folder section fails with `KeyError` |
| Sources.Collect | glotter/models/source.py:126-137 | The walk yields a bucket for exactly the configured projects |
| Sources.GetSources | glotter/models/source.py:119-138 | Every configured project has a bucket; a walk with no manifest yields only empty buckets |
| Sources.NoManifestsNoSources | glotter/models/source.py:126-129 | Directories without `testinfo.yml` contribute nothing at all |
| Sources.AddFoundAppends | glotter/models/source.py:134-137 | Each visited project's bucket gains exactly its find, and unvisited buckets are unchanged |
| Sources.ScanDirAppends | glotter/models/source.py:129-137 | Each directory appends to every bucket exactly that directory's contribution to the project |
| Sources.CollectIsExpected | glotter/models/source.py:126-137 | The walk's buckets equal the reference concatenation of per-directory contributions, in walk order |
| Sources.GetSourcesIsExpected | glotter/models/source.py:119-138 | Each successful bucket is exactly the project's sources in walk order, independent of project visiting order |
| Sources.ExpectedSourcesAreListed | glotter/models/source.py:133-137 | Every source found is the project's expected file, listed in a manifest directory of the walk, located there, with that directory's name as language |
| Sources.ContributionIsAtMostOne | glotter/models/source.py:134-137 | A directory adds at most one source to each project |
| Sources.AddFoundSucceeds | glotter/models/source.py:133-137 | Visiting the projects succeeds exactly when every visited project's find does |
| Sources.ScanDirSucceeds | glotter/models/source.py:128-137 | A directory's step succeeds exactly when the directory is discoverable: no manifest, or a valid `folder` section and valid test information for every present expected file |
| Sources.CollectSucceeds | glotter/models/source.py:126-137 | The walk succeeds exactly when every directory is discoverable |
| Sources.GetSourcesSucceeds | glotter/models/source.py:119-138 | `get_sources` fails exactly on a manifest directory without a valid `folder` section, or on a present expected file whose manifest is not valid test information |
| Sources.ListedFilesAreFound | glotter/models/source.py:128-137 | Every expected file present in a manifest directory is found: after a successful discovery the directory's `folder` section was read, and the project's bucket holds a source for the file, located in that directory, with the directory's name as language |
| Report.NewRow | glotter/report.py:49-51 | A new row has an empty cell under every project, and the language under `name` |
| Report.SourceWrites | glotter/report.py:52 | One write per source, under the project's display name, whose cell (name plus extension) is the source's file name |
| Report.Writes | glotter/report.py:46-52 | Fails exactly when a bucket's project is not in the catalog, with a `KeyError` carrying such a project key; otherwise one write per source |
| Report.Apply | glotter/report.py:48-52 | There is a row for exactly the languages written |
| Report.RowIsLastWrites | glotter/report.py:49-52 | A row has a cell under each project, under `name`, and wherever written; each cell holds the last write to it, or else the language under `name` and empty under a project |
| Report.NoRowNoWrites | glotter/report.py:49-52 | A language without a row was never written to |
| Report.CollectLanguageStats | glotter/report.py:42-54 | Fails exactly when a bucket's project is not in the catalog; otherwise there is one row per language of the sources |
| Report.WritesCoverSources | glotter/report.py:46-52 | The languages written are exactly the languages of the sources |
| Report.LastWriteAppend | glotter/report.py:49-52 | The last write to a cell in a concatenation of writes comes from the later part if it writes that cell, else from the earlier part |
| Report.LastSourceWrite | glotter/report.py:52 | One project's writes reach only its own display-name column, where the last is the file name of the last source of the language |
| Report.WritesLastFile | glotter/report.py:46-52 | The last write to a cell is the reference file: the last source of the language, in bucket order, whose project has that display name |
| Report.StatsCells | glotter/report.py:42-54 | Each collected row has a cell under every project, under `name`, and under each display name a source of the language reaches; that cell is the file name of the last such source, an unreached cell the language under `name` and empty elsewhere |
| Report.ColumnWidth | glotter/report.py:78-85 | The width is at least the title's length and every cell's length in the rows holding the project, and equals one of them |
| Report.GetColumnWidths | glotter/report.py:75-86 | One width per project, each the maximum of its title and its cells in the given rows |
| Report.LanguageWidth | glotter/report.py:59 | Fails with `ValueError` exactly when there are no languages; otherwise the maximum language length |

## Left out

- YAML parsing and Jinja2 rendering of `testinfo.yml` (glotter/models/testinfo.py:166-177). The model takes parsed mappings. A source's own manifest comes from a `render(directory, file)` parameter.
- `Settings` (glotter/settings.py). Its project catalog, and the order of its keys, are parameters. In the repository `Settings` builds `glotter/project.py` projects. `report.py` and `get_project_mappings` use `display_name` and the newer enums, which only the newer class has. The model uses the newer class there.
- The unknown-scheme `KeyError` of `get_project_name_by_scheme`. The scheme type is closed, so it cannot be represented.
- ProjectHelpers.EnumFromString: the `KeyError` carries the rejected name, not the formatted message.
- Unicode case mapping. `upper`, `lower` and `title` are modelled on ASCII letters only.
- `os.walk`, `abspath`, file reads, `mkdtemp`, `shutil.copy` and `rmtree`. The walk is given as `WalkEntry` records with absolute, normalised paths. A temp dir is a fresh name passed in. A copy that fails on a missing source file is not modelled.
- The Docker client, replaced by the `Docker` state. `images.list` filters by reference. Running a container with no image is an engine error. Image objects are represented by their reference.
- Docker exec output as bytes and its UTF-8 decode. The output is a string.
- Progress printing and the time-based throttle in `get_image` (glotter/containerfactory.py:62-75).
- The `Singleton` metaclass. The model uses one explicit world value.
- CSV and stdout writing, and the sorting in `report` (glotter/report.py:13-39, 57-72). The widths take the language list and the rows as given.
- Report.GetColumnWidths: requires every listed language to have a row. The program always passes the rows' own keys.
- CLI dispatch, download, the test runner with its regex filtering (glotter/test.py), decorators and `setup.py`.
