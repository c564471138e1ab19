/** The per-host tasks of `ice-experiment/cc.py`: where a container's bundle
    and image live, which precondition a task checks before it touches the
    host, and the exact command strings it runs. The remote file system is the
    set of paths that exist on the host; what a command returns is a parameter. */
module CcTasks {
  import opened Wrappers
  import opened Strings
  import opened Outcomes
  import opened Workflow
  import PosixPath

  const BundlesBasePath := "/var/lib/containers"
  const CvmfsBasePath := "/cvmfs/container-images.aws"

  /** `join(BUNDLES_BASE_PATH, id)`. */
  function BundlePath(id: string): string
  {
    PosixPath.Join(BundlesBasePath, id)
  }

  /** `join(CVMFS_BASE_PATH, 'image', image)`. */
  function ImagePath(image: string): string
  {
    PosixPath.JoinAll(CvmfsBasePath, ["image", image])
  }

  function RwPath(id: string): string
  {
    PosixPath.Join(BundlePath(id), "rw")
  }

  function RootfsPath(id: string): string
  {
    PosixPath.Join(BundlePath(id), "rootfs")
  }

  function ConfigPath(id: string): string
  {
    PosixPath.Join(BundlePath(id), "config.json")
  }

  /** A relative id goes under the bundles directory; an absolute one
      discards it and names the bundle itself. */
  lemma BundlePathLayout(id: string)
    ensures !PosixPath.IsAbsolute(id) ==> BundlePath(id) == "/var/lib/containers/" + id
    ensures PosixPath.IsAbsolute(id) ==> BundlePath(id) == id
  {
  }

  /** A relative image goes under the CernVM-FS `image` directory; an
      absolute one discards that prefix. */
  lemma ImagePathLayout(image: string)
    ensures !PosixPath.IsAbsolute(image) ==> ImagePath(image) == "/cvmfs/container-images.aws/image/" + image
    ensures PosixPath.IsAbsolute(image) ==> ImagePath(image) == image
  {
    if PosixPath.IsAbsolute(image) {
      PosixPath.JoinAllAbsoluteLast(CvmfsBasePath, ["image", image]);
    } else {
      var base := PosixPath.Join(CvmfsBasePath, "image");
      assert base == "/cvmfs/container-images.aws/image";
      assert ImagePath(image) == PosixPath.JoinAll(base, [image]);
      assert ImagePath(image) == PosixPath.Join(base, image);
    }
  }

  /** The branch, root-file-system and config paths always lie strictly under
      the bundle, one `/` below it unless the bundle path already ends in one. */
  lemma BundleChildren(id: string)
    ensures var b := BundlePath(id);
      && |b| < |RwPath(id)| && RwPath(id)[..|b|] == b
      && |b| < |RootfsPath(id)| && RootfsPath(id)[..|b|] == b
      && |b| < |ConfigPath(id)| && ConfigPath(id)[..|b|] == b
    ensures !PosixPath.EndsWithSep(BundlePath(id)) ==>
      && RwPath(id) == BundlePath(id) + "/rw"
      && RootfsPath(id) == BundlePath(id) + "/rootfs"
      && ConfigPath(id) == BundlePath(id) + "/config.json"
  {
  }

  /** What a task did on one host: the directory its commands ran in (`fab.cd`),
      the commands it ran with `sudo`, in order, and what it returned. */
  datatype TaskRun = TaskRun(cwd: Option<string>, commands: seq<string>, outcome: Outcome)

  /** A task that stopped at a precondition: nothing ran. */
  function Refused(msg: string): TaskRun
  {
    TaskRun(None, [], Error(msg))
  }

  /** "`<path>` does not exist", the message of a missing bundle. */
  function MissingBundleMessage(id: string): string
  {
    "`" + BundlePath(id) + "` does not exist"
  }

  /** `make_runc_bundle_task`: the image must exist and the bundle must not;
      then the bundle, its writable branch and its root are created and the
      image is union-mounted read-only under the writable branch. */
  function MakeBundleTask(image: string, id: string, fs: set<string>, mount: Outcome): TaskRun
  {
    var bundle := BundlePath(id);
    if ImagePath(image) !in fs then Refused("image `" + image + "` does not exist")
    else if bundle in fs then Refused("`" + bundle + "` exists")
    else TaskRun(None,
                 ["mkdir -p " + bundle,
                  "mkdir " + RwPath(id),
                  "mkdir " + RootfsPath(id),
                  MountCommand(image, id)],
                 mount)
  }

  /** The aufs mount of the image, read-only, under the writable branch, at
      the bundle's root. */
  function MountCommand(image: string, id: string): string
  {
    "mount -t aufs -o br=" + RwPath(id) + "=rw:" + ImagePath(image) + "=ro none " + RootfsPath(id)
  }

  /** The image check comes first: a missing image is reported as such even if
      the bundle also exists; an existing bundle is reported only for a
      present image; on either error no directory is made. Commands run
      exactly when both checks pass, and then the first one creates the
      bundle and the task returns what the mount returned. */
  lemma MakeBundlePreconditions(image: string, id: string, fs: set<string>, mount: Outcome)
    ensures var r := MakeBundleTask(image, id, fs, mount);
      && (ImagePath(image) !in fs ==> r.outcome == Failed(Some("image `" + image + "` does not exist")))
      && (ImagePath(image) in fs && BundlePath(id) in fs ==>
            r.outcome == Failed(Some("`" + BundlePath(id) + "` exists")))
      && (r.commands != [] <==> ImagePath(image) in fs && BundlePath(id) !in fs)
      && (r.commands == [] ==> r.outcome.Failed? && r.outcome.msg.Some?)
      && (r.commands != [] ==> r.commands[0] == "mkdir -p " + BundlePath(id) && r.outcome == mount)
  {
  }

  /** The flags of `ocitools generate`: ` --args a` per argument, appended in
      order as the loop of `make_runc_config_task` does. */
  function ArgsFlags(args: seq<string>): string
    decreases |args|
  {
    if |args| == 0 then "" else ArgsFlags(args[..|args| - 1]) + " --args " + args[|args| - 1]
  }

  /** The flags are the arguments joined with ` --args `, behind one leading
      ` --args `. */
  lemma {:induction false} ArgsFlagsAsJoin(args: seq<string>)
    requires args != []
    ensures ArgsFlags(args) == " --args " + Join(args, " --args ")
    decreases |args|
  {
    if |args| == 1 {
      assert args[..0] == [];
    } else {
      var init := args[..|args| - 1];
      ArgsFlagsAsJoin(init);
      JoinSnoc(init, args[|args| - 1], " --args ");
      assert init + [args[|args| - 1]] == args;
    }
  }

  /** The command loop of `make_runc_config_task`. */
  method BuildGenerateCommand(args: seq<string>) returns (cmd: string)
    ensures args == [] ==> cmd == "ocitools generate"
    ensures args != [] ==> cmd == "ocitools generate --args " + Join(args, " --args ")
  {
    cmd := "ocitools generate";
    for i := 0 to |args|
      invariant cmd == "ocitools generate" + ArgsFlags(args[..i])
    {
      assert args[..i + 1][..i] == args[..i];
      cmd := cmd + " --args " + args[i];
    }
    assert args[..|args|] == args;
    if args != [] {
      ArgsFlagsAsJoin(args);
    }
  }

  /** `make_runc_config_task`: the bundle must exist; then the generated
      config is redirected into `<bundle>/config.json`. */
  function MakeConfigTask(id: string, args: seq<string>, fs: set<string>, result: Outcome): TaskRun
  {
    if BundlePath(id) !in fs then Refused(MissingBundleMessage(id))
    else TaskRun(None, ["ocitools generate" + ArgsFlags(args) + " > " + ConfigPath(id)], result)
  }

  /** The config command is `ocitools generate`, one ` --args a` per argument in
      order, then the redirection; with no arguments it is just
      `ocitools generate > <config>`. */
  lemma ConfigCommandShape(id: string, args: seq<string>, fs: set<string>, result: Outcome)
    requires BundlePath(id) in fs
    ensures var r := MakeConfigTask(id, args, fs, result);
      && |r.commands| == 1
      && r.outcome == result
      && (args == [] ==> r.commands[0] == "ocitools generate > " + ConfigPath(id))
      && (args != [] ==>
            r.commands[0] == "ocitools generate --args " + Join(args, " --args ") + " > " + ConfigPath(id))
  {
    if args != [] {
      ArgsFlagsAsJoin(args);
    }
  }

  /** `runc_start_task`: in the bundle, create then start the container. */
  function RuncStartTask(id: string, fs: set<string>, result: Outcome): TaskRun
  {
    if BundlePath(id) !in fs then Refused(MissingBundleMessage(id))
    else TaskRun(Some(BundlePath(id)), ["runc create " + id, "runc start " + id], result)
  }

  /** `'runc exec {} {}'.format(id, ' '.join(args))`. */
  function RuncExecCommand(id: string, args: seq<string>): string
  {
    "runc exec " + id + " " + Join(args, " ")
  }

  /** With blank-free id and arguments, splitting the exec command on blanks
      gives back `runc`, `exec`, the id and every argument in order; with no
      arguments the command keeps its trailing blank. */
  lemma RuncExecCommandReadBack(id: string, args: seq<string>)
    requires PlainHost(id) && Unseparated(args, ' ')
    ensures args != [] ==> Split(RuncExecCommand(id, args), ' ') == ["runc", "exec", id] + args
    ensures args == [] ==> RuncExecCommand(id, args) == "runc exec " + id + " "
  {
    if args != [] {
      var parts := ["runc", "exec", id] + args;
      assert Unseparated(parts, ' ') by {
        forall k | 0 <= k < |parts| ensures ' ' !in parts[k] {
          if k >= 3 {
            assert parts[k] == args[k - 3];
          }
        }
      }
      assert parts[1..] == ["exec", id] + args;
      assert parts[1..][1..] == [id] + args;
      assert ([id] + args)[1..] == args;
      assert Join([id] + args, " ") == id + " " + Join(args, " ");
      assert Join(["exec", id] + args, " ") == "exec" + " " + Join([id] + args, " ");
      assert Join(parts, " ") == "runc" + " " + Join(["exec", id] + args, " ");
      assert Join(parts, " ") == RuncExecCommand(id, args);
      assert [' '] == " ";
      SplitJoin(parts, ' ');
    }
  }

  /** `runc_exec_task`: in the bundle, run the command in the container. */
  function RuncExecTask(id: string, args: seq<string>, fs: set<string>, result: Outcome): TaskRun
  {
    if BundlePath(id) !in fs then Refused(MissingBundleMessage(id))
    else TaskRun(Some(BundlePath(id)), [RuncExecCommand(id, args)], result)
  }

  /** `runc_kill_task`: in the bundle, kill then delete the container. */
  function RuncKillTask(id: string, fs: set<string>, result: Outcome): TaskRun
  {
    if BundlePath(id) !in fs then Refused(MissingBundleMessage(id))
    else TaskRun(Some(BundlePath(id)), ["runc kill " + id, "runc delete " + id], result)
  }

  /** `delete_runc_bundle_task`: unmount the root, then remove the bundle. */
  function DeleteBundleTask(id: string, fs: set<string>, result: Outcome): TaskRun
  {
    if BundlePath(id) !in fs then Refused(MissingBundleMessage(id))
    else TaskRun(None, ["umount " + RootfsPath(id), "rm -Rf " + BundlePath(id)], result)
  }

  /** Every task after bundle creation refuses, running nothing and failing
      with "`<bundle>` does not exist", exactly when the bundle is missing;
      otherwise it runs its commands and returns what the last one returned. */
  lemma BundleRequired(id: string, args: seq<string>, fs: set<string>, result: Outcome)
    ensures var tasks := [MakeConfigTask(id, args, fs, result), RuncStartTask(id, fs, result),
                          RuncExecTask(id, args, fs, result), RuncKillTask(id, fs, result),
                          DeleteBundleTask(id, fs, result)];
      forall t :: t in tasks ==>
        && (BundlePath(id) !in fs ==>
              t.commands == [] && t.outcome == Failed(Some("`" + BundlePath(id) + "` does not exist")))
        && (BundlePath(id) in fs ==> t.commands != [] && t.outcome == result)
  {
  }

  /** Removal undoes bundle creation: when `make_runc_bundle_task` ran its
      commands on one file system and the bundle exists on a later one, the
      removal task deletes exactly the directory the first `mkdir -p` made,
      and unmounts exactly the mount point the mount command ends with, which
      the third `mkdir` made. The start, exec and kill tasks run in that same
      directory. */
  lemma DeleteUndoesBundle(image: string, id: string, args: seq<string>,
                           fs0: set<string>, fs1: set<string>, mount: Outcome, result: Outcome)
    requires ImagePath(image) in fs0 && BundlePath(id) !in fs0
    requires BundlePath(id) in fs1
    ensures var mk := MakeBundleTask(image, id, fs0, mount).commands;
      var del := DeleteBundleTask(id, fs1, result).commands;
      && |mk| == 4 && |del| == 2
      && |del[0]| >= 7 && del[0][..7] == "umount "
      && |del[1]| >= 7 && del[1][..7] == "rm -Rf "
      && var dir := del[1][7..];
         var mountPoint := del[0][7..];
         && mk[0] == "mkdir -p " + dir
         && mk[2] == "mkdir " + mountPoint
         && |mk[3]| > |mountPoint|
         && mk[3][|mk[3]| - |mountPoint| - 1..] == " " + mountPoint
         && RuncStartTask(id, fs1, result).cwd == Some(dir)
         && RuncExecTask(id, args, fs1, result).cwd == Some(dir)
         && RuncKillTask(id, fs1, result).cwd == Some(dir)
  {
    var mountPoint := RootfsPath(id);
    var mountCmd := MountCommand(image, id);
    MountCommandEnds(image, id);
    assert MakeBundleTask(image, id, fs0, mount).commands ==
      ["mkdir -p " + BundlePath(id), "mkdir " + RwPath(id), "mkdir " + mountPoint, mountCmd];
    var del := DeleteBundleTask(id, fs1, result).commands;
    assert del == ["umount " + mountPoint, "rm -Rf " + BundlePath(id)];
    assert del[0][7..] == mountPoint;
    assert del[1][7..] == BundlePath(id);
  }

  /** The aufs mount command ends with a blank and the mount point. */
  lemma MountCommandEnds(image: string, id: string)
    ensures var m := MountCommand(image, id);
      |m| > |RootfsPath(id)| && m[|m| - |RootfsPath(id)| - 1..] == " " + RootfsPath(id)
  {
    var prefix := "mount -t aufs -o br=" + RwPath(id) + "=rw:" + ImagePath(image) + "=ro none";
    assert MountCommand(image, id) == prefix + (" " + RootfsPath(id));
  }

  /** The bundle step of a fleet: each host's outcome of `make_runc_bundle_task`,
      given that host's file system and mount result. */
  function BundleStep(hosts: seq<string>, image: string, id: string,
                      fsOf: string -> set<string>, mountOf: string -> Outcome): (res: Results)
    ensures |res| == |hosts|
  {
    seq(|hosts|, i requires 0 <= i < |hosts| =>
      Entry(hosts[i], MakeBundleTask(image, id, fsOf(hosts[i]), mountOf(hosts[i])).outcome))
  }

  /** A host missing the image fails its bundle step with the image message. */
  lemma MissingImageFailsBundle(hosts: seq<string>, image: string, id: string,
                                fsOf: string -> set<string>, mountOf: string -> Outcome, h: nat)
    requires h < |hosts|
    requires ImagePath(image) !in fsOf(hosts[h])
    ensures BundleStep(hosts, image, id, fsOf, mountOf)[h] ==
              Entry(hosts[h], Failed(Some("image `" + image + "` does not exist")))
  {
    MakeBundlePreconditions(image, id, fsOf(hosts[h]), mountOf(hosts[h]));
  }

  /** One host missing the image stops `runc_start` before the config step:
      the runner returns `False` and its report names that host with the
      image precondition failure verbatim. */
  lemma MissingImageStopsStart(hosts: seq<string>, image: string, id: string,
                               fsOf: string -> set<string>, mountOf: string -> Outcome,
                               config: Results, start: Results, h: nat)
    requires h < |hosts|
    requires ImagePath(image) !in fsOf(hosts[h])
    ensures var bundle := BundleStep(hosts, image, id, fsOf, mountOf);
      var r := RuncStart(bundle, config, start);
      && r.returnedFalse
      && r.stepsRun == 1
      && r.lines[h + 1] == StatusLine(hosts[h], "[FAIL] - image `" + image + "` does not exist")
  {
    var bundle := BundleStep(hosts, image, id, fsOf, mountOf);
    MissingImageFailsBundle(hosts, image, id, fsOf, mountOf, h);
    FailedBundleStopsStart(bundle, config, start, h, "image `" + image + "` does not exist");
  }
}
