/** The container factory (`glotter/containerfactory.py`) as a state machine. Each
    operation takes the whole world (the factory's two tables, the engine and the
    host's temporary directories) and returns the world afterwards together with its
    outcome. A failure keeps every change made before it, as the exception would. */
module ContainerFactory {
  import opened Outcomes
  import opened Docker
  import opened Paths
  import opened TestInfo

  /** The factory's two tables, both keyed by a source's full path: the container
      handle, and the temporary directory last copied into for that source. */
  datatype Registry = Registry(containers: map<string, nat>, workspaces: map<string, string>)

  /** The host's temporary directories and the names of the files copied into each. */
  datatype Host = Host(tempDirs: map<string, set<string>>)

  datatype World = World(registry: Registry, engine: Engine, host: Host)

  /** The world after an operation, and what the operation returned or raised. */
  datatype Step<T> = Step(world: World, outcome: Result<T>)

  /** Where every workspace is mounted, and the working directory of every command. */
  const WorkDir: string := "/src"

  /** What a container runs while it waits for commands. */
  const IdleCommand: string := "sleep 1h"

  /** The image reference `image:tag` that is listed and pulled. */
  function ImageRef(info: ContainerInfo): string {
    info.image + ":" + info.tag
  }

  /** The factory's tables agree with the engine and the host: every source with a
      container also has a workspace, each such container is live and belongs to one
      source only, and every workspace is an existing temporary directory of its own. */
  ghost predicate Valid(w: World) {
    && w.registry.containers.Keys <= w.registry.workspaces.Keys
    && (forall k :: k in w.registry.containers ==>
          w.registry.containers[k] < |w.engine.containers|
          && !w.engine.containers[w.registry.containers[k]].removed)
    && (forall k1, k2 :: k1 in w.registry.containers && k2 in w.registry.containers && k1 != k2 ==>
          w.registry.containers[k1] != w.registry.containers[k2])
    && (forall k :: k in w.registry.workspaces ==> w.registry.workspaces[k] in w.host.tempDirs)
    && (forall k1, k2 :: k1 in w.registry.workspaces && k2 in w.registry.workspaces && k1 != k2 ==>
          w.registry.workspaces[k1] != w.registry.workspaces[k2])
  }

  /** The factory right after construction, on any engine and host. */
  lemma EmptyIsValid(e: Engine, h: Host)
    ensures Valid(World(Registry(map[], map[]), e, h))
  {
  }

  /** `get_image`: an image listed exactly once is used as it is; otherwise the image is
      pulled and listed again, and nothing is returned unless it is now listed exactly
      once. A pull the engine refuses is raised. */
  function GetImage(e: Engine, info: ContainerInfo): (r: Result<(Engine, Option<string>)>)
    ensures var ref := ImageRef(info);
      |ListImages(e.images, ref)| == 1 ==> r == Ok((e, Some(ref)))
    ensures var ref := ImageRef(info);
      r.Err? <==> |ListImages(e.images, ref)| != 1 && ref !in e.registry
    ensures r.Err? ==> r.error.EngineError?
    ensures r.Ok? ==> r.value.0.containers == e.containers && r.value.0.registry == e.registry
    ensures var ref := ImageRef(info);
      r.Ok? ==> (r.value.1.Some? <==> |ListImages(r.value.0.images, ref)| == 1)
    ensures r.Ok? && r.value.1.Some? ==> r.value.1.value == ImageRef(info)
    ensures var ref := ImageRef(info);
      |ListImages(e.images, ref)| != 1 && ref in e.registry ==> r.Ok? && r.value.0 == Pull(e, ref).value
    ensures var ref := ImageRef(info);
      ref !in e.images && ref in e.registry ==> r == Ok((e.(images := e.images + [ref]), Some(ref)))
    ensures var ref := ImageRef(info);
      |ListImages(e.images, ref)| > 1 && ref in e.registry ==> r == Ok((e, None))
  {
    var ref := ImageRef(info);
    var found := ListImages(e.images, ref);
    if |found| == 1 then Ok((e, Some(found[0])))
    else
      var pulled :- Pull(e, ref);
      var again := ListImages(pulled.images, ref);
      if |again| == 1 then Ok((pulled, Some(again[0]))) else Ok((pulled, None))
  }

  /** Once an image has been resolved, resolving it again finds it locally: nothing is
      pulled and the engine is left as it is. */
  lemma GetImageSettles(e: Engine, info: ContainerInfo)
    requires GetImage(e, info).Ok? && GetImage(e, info).value.1.Some?
    ensures var e' := GetImage(e, info).value.0;
      GetImage(e', info) == Ok((e', Some(ImageRef(info))))
  {
  }

  /** The container `get_container` starts for a source. */
  ghost predicate IsNewContainer(c: Container, image: string, sourceName: string, uuid: string, tmp: string) {
    && c.image == image
    && c.name == sourceName + "_" + uuid
    && c.command == IdleCommand
    && c.workingDir == WorkDir
    && c.volumes == map[tmp := Bind(WorkDir, "rw")]
    && c.detach
    && !c.removed
    && c.execs == []
  }

  /** `get_container` for the source at `key`. `tmp` is the directory `mkdtemp` makes and
      `uuid` the hex string of a fresh UUID. On every call a new temporary directory is
      made, the source file is copied into it and it is recorded as the source's
      workspace, and the image is resolved; only then is an existing container reused
      or, failing that, a new one started with the new directory mounted. */
  function GetContainer(w: World, key: string, sourceName: string, info: ContainerInfo, tmp: string, uuid: string)
    : (r: Step<nat>)
    requires tmp !in w.host.tempDirs
    ensures r.world.registry.workspaces == w.registry.workspaces[key := tmp]
    ensures r.world.host.tempDirs == w.host.tempDirs[tmp := {Basename(key)}]
    ensures r.outcome.Err? <==>
      || GetImage(w.engine, info).Err?
      || (key !in w.registry.containers && GetImage(w.engine, info).value.1.None?)
    ensures r.outcome.Err? ==>
      r.world.registry.containers == w.registry.containers && r.world.engine.containers == w.engine.containers
    ensures key in w.registry.containers ==>
      r.world.registry.containers == w.registry.containers && r.world.engine.containers == w.engine.containers
    ensures key in w.registry.containers && r.outcome.Ok? ==> r.outcome.value == w.registry.containers[key]
    ensures key !in w.registry.containers && r.outcome.Ok? ==>
      && r.outcome.value == |w.engine.containers|
      && |r.world.engine.containers| == |w.engine.containers| + 1
      && r.world.engine.containers[..r.outcome.value] == w.engine.containers
      && IsNewContainer(r.world.engine.containers[r.outcome.value], ImageRef(info), sourceName, uuid, tmp)
      && r.world.registry.containers == w.registry.containers[key := r.outcome.value]
    ensures r.world.engine.registry == w.engine.registry
    ensures Valid(w) && r.outcome.Ok? ==> r.outcome.value < |r.world.engine.containers|
  {
    var host := Host(w.host.tempDirs[tmp := {Basename(key)}]);
    var recorded := w.(registry := w.registry.(workspaces := w.registry.workspaces[key := tmp]), host := host);
    match GetImage(w.engine, info)
    case Err(e) => Step(recorded, Err(e))
    case Ok((engine, image)) =>
      var w1 := recorded.(engine := engine);
      if key in w.registry.containers then Step(w1, Ok(w.registry.containers[key]))
      else if image.None? then Step(w1, Err(EngineError("no image to run for " + ImageRef(info))))
      else
        var c := Container(image.value, sourceName + "_" + uuid, IdleCommand, WorkDir,
                           map[tmp := Bind(WorkDir, "rw")], true, false, []);
        var (started, h) := RunContainer(engine, c);
        Step(w1.(engine := started, registry := w1.registry.(containers := w.registry.containers[key := h])), Ok(h))
  }

  /** `cleanup` for the source at `key`: the container is removed by force with its
      volumes, the recorded workspace is deleted (a missing directory is ignored), and
      both table entries are dropped. A source without a container is a `KeyError`
      that changes nothing. */
  function Cleanup(w: World, key: string): (r: Step<()>)
    ensures key !in w.registry.containers ==> r == Step(w, Err(KeyError(key)))
    ensures r.outcome.Err? ==> r.outcome.error == KeyError(key) && r.world.registry == w.registry
    ensures r.outcome.Ok? <==> key in w.registry.containers && key in w.registry.workspaces
    ensures r.outcome.Ok? ==>
      && r.world.registry.containers == w.registry.containers - {key}
      && r.world.registry.workspaces == w.registry.workspaces - {key}
      && r.world.host.tempDirs == w.host.tempDirs - {w.registry.workspaces[key]}
    ensures |r.world.engine.containers| == |w.engine.containers|
    ensures key in w.registry.containers && w.registry.containers[key] < |w.engine.containers| ==>
      r.world.engine.containers[w.registry.containers[key]].removed
    ensures forall g :: 0 <= g < |w.engine.containers| && (key !in w.registry.containers || g != w.registry.containers[key]) ==>
      r.world.engine.containers[g] == w.engine.containers[g]
  {
    if key !in w.registry.containers then Step(w, Err(KeyError(key)))
    else
      var engine := RemoveContainer(w.engine, w.registry.containers[key]);
      if key !in w.registry.workspaces then Step(w.(engine := engine), Err(KeyError(key)))
      else
        var host := Host(w.host.tempDirs - {w.registry.workspaces[key]});
        var registry := Registry(w.registry.containers - {key}, w.registry.workspaces - {key});
        Step(World(registry, engine, host), Ok(()))
  }

  /** Acquiring a container keeps the tables consistent with the engine and the host. */
  lemma GetContainerPreservesValid(w: World, key: string, sourceName: string, info: ContainerInfo, tmp: string, uuid: string)
    requires Valid(w)
    requires tmp !in w.host.tempDirs
    ensures Valid(GetContainer(w, key, sourceName, info, tmp, uuid).world)
  {
  }

  /** Cleaning up keeps the tables consistent, and under them cleanup always succeeds
      for a source that has a container. */
  lemma CleanupPreservesValid(w: World, key: string)
    requires Valid(w)
    ensures Valid(Cleanup(w, key).world)
    ensures key in w.registry.containers ==> Cleanup(w, key).outcome.Ok?
  {
  }

  /** Acquiring twice for one source gives the same container and starts only one:
      the second call reuses the handle the first recorded, and an image that resolved
      once resolves again. */
  lemma AcquireTwiceReuses(w: World, key: string, sourceName: string, info: ContainerInfo,
                           tmp1: string, uuid1: string, tmp2: string, uuid2: string)
    requires Valid(w)
    requires tmp1 !in w.host.tempDirs && tmp2 !in w.host.tempDirs && tmp1 != tmp2
    requires GetContainer(w, key, sourceName, info, tmp1, uuid1).outcome.Ok?
    ensures var s1 := GetContainer(w, key, sourceName, info, tmp1, uuid1);
      var s2 := GetContainer(s1.world, key, sourceName, info, tmp2, uuid2);
      && s2.outcome == s1.outcome
      && s2.world.engine.containers == s1.world.engine.containers
      && |s2.world.engine.containers| <= |w.engine.containers| + 1
      && tmp1 in s2.world.host.tempDirs && tmp2 in s2.world.host.tempDirs
  {
    var s1 := GetContainer(w, key, sourceName, info, tmp1, uuid1);
    assert tmp2 !in s1.world.host.tempDirs;
    var ref := ImageRef(info);
    var g := GetImage(s1.world.engine, info);
    if key !in w.registry.containers {
      var g0 := GetImage(w.engine, info);
      assert g0.Ok? && g0.value.1.Some?;
      assert |ListImages(s1.world.engine.images, ref)| == 1;
    }
  }

  /** Cleaning up the same source twice fails the second time and changes nothing. */
  lemma CleanupTwiceFails(w: World, key: string)
    requires Cleanup(w, key).outcome.Ok?
    ensures var s1 := Cleanup(w, key);
      Cleanup(s1.world, key) == Step(s1.world, Err(KeyError(key)))
  {
  }

  /** Acquiring a second time re-records the source's workspace as the new directory,
      while its container stays mounted on the first one; cleanup then deletes only the
      new directory, so the directory the container used is never deleted. */
  lemma ReacquireLeaksMountedWorkspace(w: World, key: string, sourceName: string, info: ContainerInfo,
                                       tmp1: string, uuid1: string, tmp2: string, uuid2: string)
    requires Valid(w)
    requires key !in w.registry.containers
    requires tmp1 !in w.host.tempDirs && tmp2 !in w.host.tempDirs && tmp1 != tmp2
    requires GetContainer(w, key, sourceName, info, tmp1, uuid1).outcome.Ok?
    ensures var s1 := GetContainer(w, key, sourceName, info, tmp1, uuid1);
      var s2 := GetContainer(s1.world, key, sourceName, info, tmp2, uuid2);
      var s3 := Cleanup(s2.world, key);
      && s2.outcome.Ok?
      && tmp1 in s3.world.engine.containers[s2.outcome.value].volumes
      && s3.outcome.Ok?
      && tmp1 in s3.world.host.tempDirs
      && tmp2 !in s3.world.host.tempDirs
  {
    var s1 := GetContainer(w, key, sourceName, info, tmp1, uuid1);
    GetContainerPreservesValid(w, key, sourceName, info, tmp1, uuid1);
    AcquireTwiceReuses(w, key, sourceName, info, tmp1, uuid1, tmp2, uuid2);
    var s2 := GetContainer(s1.world, key, sourceName, info, tmp2, uuid2);
    GetContainerPreservesValid(s1.world, key, sourceName, info, tmp2, uuid2);
    var h := s2.outcome.value;
    assert h == |w.engine.containers|;
    assert tmp1 in s2.world.engine.containers[h].volumes;
  }

  /** Operations on one source leave every other source's entries alone. */
  lemma OtherSourcesUntouched(w: World, key: string, other: string, sourceName: string, info: ContainerInfo,
                              tmp: string, uuid: string)
    requires tmp !in w.host.tempDirs
    requires other != key
    ensures var s := GetContainer(w, key, sourceName, info, tmp, uuid).world;
      && (other in s.registry.containers <==> other in w.registry.containers)
      && (other in w.registry.containers ==> s.registry.containers[other] == w.registry.containers[other])
      && (other in s.registry.workspaces <==> other in w.registry.workspaces)
      && (other in w.registry.workspaces ==> s.registry.workspaces[other] == w.registry.workspaces[other])
    ensures var s := Cleanup(w, key).world;
      && (other in s.registry.containers <==> other in w.registry.containers)
      && (other in w.registry.containers ==> s.registry.containers[other] == w.registry.containers[other])
      && (other in s.registry.workspaces <==> other in w.registry.workspaces)
      && (other in w.registry.workspaces ==> s.registry.workspaces[other] == w.registry.workspaces[other])
  {
  }
}
