/** The container engine the factory drives, as a state the model can inspect: the
    local image list, the registry that pulls draw from, and every container started
    so far. A container's handle is its position in `containers`. */
module Docker {
  import opened Outcomes

  /** One entry of the `volumes` argument: where a host directory is mounted, and how. */
  datatype Bind = Bind(bind: string, mode: string)

  /** One `exec_run` call. */
  datatype ExecCall = ExecCall(cmd: string, workdir: string, detach: bool)

  datatype Container = Container(
    image: string,
    name: string,
    command: string,
    workingDir: string,
    volumes: map<string, Bind>,
    detach: bool,
    removed: bool,
    execs: seq<ExecCall>)

  datatype Engine = Engine(images: seq<string>, registry: set<string>, containers: seq<Container>)

  /** `images.list(name=ref)`: the local images carrying the reference, in order: every
      one of them, so as many entries as the local list holds copies of the reference. */
  function ListImages(images: seq<string>, ref: string): (r: seq<string>)
    ensures forall i :: 0 <= i < |r| ==> r[i] == ref
    ensures |r| == multiset(images)[ref]
    ensures |r| == 0 <==> ref !in images
    ensures |r| <= |images|
  {
    if images == [] then []
    else
      var last := images[|images| - 1];
      assert images == images[..|images| - 1] + [last];
      ListImages(images[..|images| - 1], ref) + (if last == ref then [last] else [])
  }

  /** `api.pull(repository, tag)`: an image the registry does not hold makes the engine
      fail; otherwise the image is present locally afterwards, fetched only if it was
      missing. */
  function Pull(e: Engine, ref: string): (r: Result<Engine>)
    ensures r.Err? <==> ref !in e.registry
    ensures r.Ok? ==> r.value.registry == e.registry && r.value.containers == e.containers
    ensures r.Ok? ==> |ListImages(r.value.images, ref)| == if ref in e.images then |ListImages(e.images, ref)| else 1
    ensures r.Ok? ==> forall x :: x != ref ==> multiset(r.value.images)[x] == multiset(e.images)[x]
  {
    if ref !in e.registry then Err(EngineError("pull access denied for " + ref))
    else if ref in e.images then Ok(e)
    else
      assert (e.images + [ref])[..|e.images|] == e.images;
      Ok(e.(images := e.images + [ref]))
  }

  /** `containers.run(...)`: the new container gets the next handle. */
  function RunContainer(e: Engine, c: Container): (r: (Engine, nat))
    ensures r.1 == |e.containers| && r.0.containers == e.containers + [c]
    ensures r.0.images == e.images && r.0.registry == e.registry
  {
    (e.(containers := e.containers + [c]), |e.containers|)
  }

  /** `container.exec_run(call)`: the call is recorded on the container. An unknown
      handle leaves the engine as it is. */
  function ExecRun(e: Engine, h: nat, call: ExecCall): (r: Engine)
    ensures |r.containers| == |e.containers| && r.images == e.images && r.registry == e.registry
    ensures h < |e.containers| ==> r.containers[h] == e.containers[h].(execs := e.containers[h].execs + [call])
    ensures forall g :: 0 <= g < |e.containers| && g != h ==> r.containers[g] == e.containers[g]
  {
    if h < |e.containers| then
      var c := e.containers[h];
      e.(containers := e.containers[h := c.(execs := c.execs + [call])])
    else e
  }

  /** `container.remove(v=True, force=True)`: the container is gone, running or not. */
  function RemoveContainer(e: Engine, h: nat): (r: Engine)
    ensures |r.containers| == |e.containers| && r.images == e.images && r.registry == e.registry
    ensures h < |e.containers| ==> r.containers[h] == e.containers[h].(removed := true)
    ensures forall g :: 0 <= g < |e.containers| && g != h ==> r.containers[g] == e.containers[g]
  {
    if h < |e.containers| then
      e.(containers := e.containers[h := e.containers[h].(removed := true)])
    else e
  }
}
