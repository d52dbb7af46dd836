/** The command-line front end of bin/cli.js: it checks the parsed
    arguments with its own first-match chain, fills the `{{...}}`
    placeholders of the target from the manifest, passes the target as a
    target folder with `--folder` and as a target file otherwise, and calls
    the transfer resolver. */
module Cli {
  import opened Values
  import opened Paths
  import opened CopyFile
  import opened Templates

  /** What the argument parser yields that the front end reads:
      `invalidFlag`, `invalidFlagMsg`, `paramCount`, `params`,
      `flagOn.folder` and `flagMap.cd`. */
  datatype CliArgs = CliArgs(
    invalidFlag: bool,
    invalidFlagMsg: string,
    paramCount: nat,
    params: seq<string>,
    folder: bool,
    cd: Option<string>)

  /** `cli.params[i]`, undefined past the end. */
  function Param(args: CliArgs, i: nat): Option<string>
  {
    if i < |args.params| then Some(args.params[i]) else None
  }

  /** The checks of the front end, in the order it tries them. */
  datatype CliCheck = BadFlag | Extraneous | NoSource | NoTargetFolder | NoTargetFile

  function CliRank(c: CliCheck): nat
  {
    match c
    case BadFlag => 0
    case Extraneous => 1
    case NoSource => 2
    case NoTargetFolder => 3
    case NoTargetFile => 4
  }

  /** Whether check `c` fails, judged on its own. */
  predicate CliFails(c: CliCheck, args: CliArgs)
  {
    match c
    case BadFlag => args.invalidFlag
    case Extraneous => args.paramCount > 2
    case NoSource => !Truthy(Param(args, 0))
    case NoTargetFolder => !Truthy(Param(args, 1)) && args.folder
    case NoTargetFile => !Truthy(Param(args, 1))
  }

  /** The message of a failed check, without the tag. */
  function CliMessage(c: CliCheck, args: CliArgs): string
  {
    match c
    case BadFlag => args.invalidFlagMsg
    case Extraneous => "Extraneous parameter: " + TextOf(Param(args, 2), "undefined")
    case NoSource => "Missing source file."
    case NoTargetFolder => "Missing target folder."
    case NoTargetFile => "Missing target file."
  }

  /** The `error` chain: the check reported is the first in order that
      fails, and there is none exactly when all pass. */
  function CliFailure(args: CliArgs): (r: Option<CliCheck>)
    ensures r.None? ==> forall c :: !CliFails(c, args)
    ensures r.Some? ==> CliFails(r.value, args)
    ensures r.Some? ==> forall c :: CliRank(c) < CliRank(r.value) ==> !CliFails(c, args)
  {
    if args.invalidFlag then Some(BadFlag)
    else if args.paramCount > 2 then Some(Extraneous)
    else if !Truthy(Param(args, 0)) then Some(NoSource)
    else if !Truthy(Param(args, 1)) && args.folder then Some(NoTargetFolder)
    else if !Truthy(Param(args, 1)) then Some(NoTargetFile)
    else None
  }

  /** When the chain passes, there is an invalid flag nowhere, at most two
      parameters are counted, and a non-empty source and target are given. */
  lemma CliPasses(args: CliArgs)
    requires CliFailure(args).None?
    ensures !args.invalidFlag && args.paramCount <= 2
    ensures |args.params| >= 2 && args.params[0] != "" && args.params[1] != ""
  {
    assert !CliFails(BadFlag, args) && !CliFails(Extraneous, args);
    assert !CliFails(NoSource, args) && !CliFails(NoTargetFile, args);
  }

  /** The options handed to `cp`: `cd` from the flag map, and the target,
      with its placeholders filled, under `targetFolder` with `--folder` and
      under `targetFile` otherwise. */
  function CliOptions(args: CliArgs, manifest: Json): Settings
    requires CliFailure(args).None?
  {
    CliPasses(args);
    var target := Substitute(args.params[1], manifest);
    if args.folder then Defaults.(cd := args.cd, targetFolder := Some(target))
    else Defaults.(cd := args.cd, targetFile := Some(target))
  }

  /** The options carry exactly one of the two target keys, chosen by the
      `--folder` flag, so `cp` never sees an ambiguous target, and sees a
      missing one only when the filled-in target is empty. */
  lemma OptionsTarget(args: CliArgs, manifest: Json)
    requires CliFailure(args).None?
    ensures var s := CliOptions(args, manifest);
      var t := Substitute(args.params[1], manifest);
      && s.cd == args.cd && s.fileExtension.None? && !s.move
      && (args.folder ==> s.targetFolder == Some(t) && s.targetFile.None?)
      && (!args.folder ==> s.targetFile == Some(t) && s.targetFolder.None?)
      && !AmbiguousTarget(s)
      && (MissingTarget(s) <==> t == "")
  {
  }

  /** A target where no `{{...}}` match starts, such as the typo
      "{{pkg.name}.html", reaches `cp` as given, so the target is never
      missing. A target without "{{" anywhere meets that condition
      (NoOpenNoMatch). */
  lemma PlainTargetKept(args: CliArgs, manifest: Json)
    requires CliFailure(args).None?
    requires NoMatch(args.params[1])
    ensures var s := CliOptions(args, manifest);
      (if args.folder then s.targetFolder else s.targetFile) == Some(args.params[1])
    ensures !MissingTarget(CliOptions(args, manifest))
  {
    CliPasses(args);
    SubstituteNoToken(args.params[1], manifest);
  }

  /** A target that is one token naming a field holding the empty string
      leaves `cp` without a target: copying an existing file named `src` to
      "{{pkg.<name>}}" throws "Must specify a target file or folder." */
  lemma EmptyFieldLosesTarget(args: CliArgs, manifest: Json, disk: Disk, src: string, name: string)
    requires IsName(src) && src in disk && disk[src].File?
    requires '.' !in name && BraceFree("pkg." + name)
    requires Get(manifest, name) == Some(Scalar(""))
    requires args == CliArgs(false, "", 2, [src, "{{" + ("pkg." + name) + "}}"], false, None)
    ensures MissingTarget(CliOptions(args, manifest))
    ensures Transfer(disk, Some(src), CliOptions(args, manifest)).0 ==
      Thrown(Tag + "Must specify a target file or folder.")
  {
    var e := "pkg." + name;
    FieldOfPkgText(manifest, name, e, "");
    SubstituteToken(e, "", manifest);
    assert "{{" + e + "}}" + "" == args.params[1];
    assert Substitute("", manifest) == "";
    OptionsTarget(args, manifest);
    var s := CliOptions(args, manifest);
    assert StartFolder(s.cd) + src == src;
    NormalizeName(src);
    TransferNoTarget(disk, Some(src), s);
  }

  /** The whole command: the front end's checks, then `cp` on the disk. */
  method Run(args: CliArgs, manifest: Json, fs: FileSystem) returns (out: Outcome)
    requires args.invalidFlag ==> args.invalidFlagMsg != ""
    modifies fs
    ensures CliFailure(args).Some? ==>
      out == Thrown(Tag + CliMessage(CliFailure(args).value, args)) && fs.entries == old(fs.entries)
    ensures CliFailure(args).None? ==>
      (out, fs.entries) == Transfer(old(fs.entries), Some(args.params[0]), CliOptions(args, manifest))
  {
    var failure := CliFailure(args);
    if failure.Some? {
      return Thrown(Tag + CliMessage(failure.value, args));
    }
    CliPasses(args);
    var options := CliOptions(args, manifest);
    out := fs.Cp(Some(args.params[0]), options);
  }
}
