/** The transfer resolver `copyFile.cp` of dist/copy-file.js: it resolves a
    source path and a settings bag into concrete source, target-folder and
    target paths, creates the target folder, picks at most one error by a
    fixed priority, and then copies or renames the file. The disk is a map
    from normalised path strings to entries. */
module CopyFile {
  import opened Values
  import opened Strings
  import opened Paths

  newtype byte = x: int | 0 <= x < 256

  /** What a path names on disk. */
  datatype Entry = File(content: seq<byte>) | Dir

  type Disk = map<string, Entry>

  /** The settings after the caller's options are merged over the defaults. */
  datatype Settings = Settings(
    cd: Option<string>,
    targetFile: Option<string>,
    targetFolder: Option<string>,
    fileExtension: Option<string>,
    move: bool)

  /** The defaults every call starts from. */
  const Defaults := Settings(None, None, None, None, false)

  /** Every thrown message starts with this tag. */
  const Tag := "[copy-file-util] "

  /** Neither a target file nor a target folder is given. */
  predicate MissingTarget(s: Settings)
  {
    !Truthy(s.targetFile) && !Truthy(s.targetFolder)
  }

  /** Both a target file and a target folder are given. */
  predicate AmbiguousTarget(s: Settings)
  {
    Truthy(s.targetFile) && Truthy(s.targetFolder)
  }

  /** The prefix put in front of the source, the target folder and the
      target: the normalised `cd` followed by '/', or nothing. */
  function StartFolder(cd: Option<string>): (r: string)
    ensures r == "" || r[|r| - 1] == '/'
    ensures Truthy(cd) <==> r != ""
  {
    if Truthy(cd) then Normalize(cd.value) + "/" else ""
  }

  /** The paths `cp` derives before it touches the disk, and what it learns
      about the source. `targetFolder` is None where the source has null. */
  datatype Plan = Plan(
    source: string,
    sourceExists: bool,
    sourceIsFile: bool,
    targetFolder: Option<string>,
    target: string)

  /** Whether what a plan says about its source agrees with the disk: the
      source exists when it is named and present, and is a file when it
      exists as one. */
  predicate Probed(disk: Disk, plan: Plan)
  {
    && (plan.sourceExists <==> plan.source != "" && plan.source in disk)
    && (plan.sourceIsFile <==> plan.sourceExists && disk[plan.source].File?)
  }

  function Resolve(disk: Disk, sourceFile: Option<string>, s: Settings): (plan: Plan)
    ensures Probed(disk, plan)
    ensures !Truthy(sourceFile) ==> plan.source == ""
  {
    var start := StartFolder(s.cd);
    var source := if Truthy(sourceFile) then Normalize(start + sourceFile.value) else "";
    var present := source != "" && source in disk;
    var isFile := present && disk[source].File?;
    var fileName := if isFile then Basename(source) else "null";
    var targetPath := if Truthy(s.targetFile) then Some(Dirname(s.targetFile.value)) else s.targetFolder;
    var folder := if Truthy(targetPath) then Some(Normalize(start + targetPath.value)) else None;
    var targetFile := if s.targetFile.Some? then s.targetFile.value
                      else TextOf(s.targetFolder, "null") + "/" + fileName;
    Plan(source, present, isFile, folder, Normalize(start + targetFile))
  }

  /** The validations, in the order the source tries them. */
  datatype Check =
    | FileExtensionSet
    | NoSourceFile
    | SourceMissing
    | SourceNotFile
    | NoTarget
    | BothTargets
    | FolderUnwritable

  function Rank(c: Check): nat
  {
    match c
    case FileExtensionSet => 0
    case NoSourceFile => 1
    case SourceMissing => 2
    case SourceNotFile => 3
    case NoTarget => 4
    case BothTargets => 5
    case FolderUnwritable => 6
  }

  /** Whether validation `c` fails, judged on its own. `writable` says that
      the target folder exists once it has been created. */
  predicate Fails(c: Check, sourceFile: Option<string>, s: Settings, plan: Plan, writable: bool)
  {
    match c
    case FileExtensionSet => Truthy(s.fileExtension)
    case NoSourceFile => !Truthy(sourceFile)
    case SourceMissing => !plan.sourceExists
    case SourceNotFile => !plan.sourceIsFile
    case NoTarget => MissingTarget(s)
    case BothTargets => AmbiguousTarget(s)
    case FolderUnwritable => !writable
  }

  /** The message of a failed validation, without the tag. */
  function Message(c: Check, plan: Plan): string
  {
    match c
    case FileExtensionSet => "Option \"fileExtension\" not yet implemented."
    case NoSourceFile => "Must specify the source file."
    case SourceMissing => "Source file does not exist: " + plan.source
    case SourceNotFile => "Source is not a file: " + plan.source
    case NoTarget => "Must specify a target file or folder."
    case BothTargets => "Target cannot be both a file and a folder."
    case FolderUnwritable => "Target folder cannot be written to: " + TextOf(plan.targetFolder, "null")
  }

  /** The ternary chain that picks the error: the validation reported is the
      first in order that fails, and there is none exactly when all pass. */
  function FirstFailure(sourceFile: Option<string>, s: Settings, plan: Plan, writable: bool): (r: Option<Check>)
    ensures r.None? ==> forall c :: !Fails(c, sourceFile, s, plan, writable)
    ensures r.Some? ==> Fails(r.value, sourceFile, s, plan, writable)
    ensures r.Some? ==> forall c :: Rank(c) < Rank(r.value) ==> !Fails(c, sourceFile, s, plan, writable)
  {
    if Truthy(s.fileExtension) then Some(FileExtensionSet)
    else if !Truthy(sourceFile) then Some(NoSourceFile)
    else if !plan.sourceExists then Some(SourceMissing)
    else if !plan.sourceIsFile then Some(SourceNotFile)
    else if MissingTarget(s) then Some(NoTarget)
    else if AmbiguousTarget(s) then Some(BothTargets)
    else if !writable then Some(FolderUnwritable)
    else None
  }

  /** The folders `mkdirSync(folder, { recursive: true })` makes: the folder
      and every folder above it. */
  function Ancestors(folder: string): set<string>
  {
    set i | 0 < i <= |folder| && (i == |folder| || folder[i] == '/') :: folder[..i]
  }

  /** Every missing folder on the way to `folder` becomes a directory;
      entries already present are kept. */
  function MakeDirs(disk: Disk, folder: string): Disk
  {
    (map a | a in Ancestors(folder) :: Dir) + disk
  }

  /** The disk once the target folder, when there is one, has been made. */
  function AfterMkdir(disk: Disk, plan: Plan): Disk
  {
    if Truthy(plan.targetFolder) then MakeDirs(disk, plan.targetFolder.value) else disk
  }

  /** `fs.copyFileSync(source, target)`. */
  function CopyTo(disk: Disk, source: string, target: string): Disk
    requires source in disk
  {
    disk[target := disk[source]]
  }

  /** `fs.renameSync(source, target)`. */
  function MoveTo(disk: Disk, source: string, target: string): Disk
    requires source in disk
  {
    (disk - {source})[target := disk[source]]
  }

  /** The record `cp` returns; the duration is not modelled. */
  datatype CopyResult = CopyResult(origin: string, dest: string, moved: bool)

  /** What a call to `cp` ends with: a thrown error or the result record. */
  datatype Outcome = Thrown(message: string) | Done(result: CopyResult)

  /** Whether the target folder exists after it has been made. */
  predicate Writable(made: Disk, plan: Plan)
  {
    Truthy(plan.targetFolder) && plan.targetFolder.value in made
  }

  /** One call of `cp` on a disk: its outcome and the disk afterwards. */
  function Transfer(disk: Disk, sourceFile: Option<string>, s: Settings): (r: (Outcome, Disk))
    ensures r.0.Thrown? ==> Tag <= r.0.message
    ensures r.0.Done? ==> r.0.result.moved == s.move && r.0.result.dest in r.1
  {
    Execute(disk, sourceFile, s, Resolve(disk, sourceFile, s))
  }

  /** What `cp` does once the paths are resolved: make the folder, pick the
      error, then rename or copy. */
  function Execute(disk: Disk, sourceFile: Option<string>, s: Settings, plan: Plan): (r: (Outcome, Disk))
    requires Probed(disk, plan)
    ensures r.0.Thrown? ==> Tag <= r.0.message
    ensures r.0.Done? ==> r.0.result.moved == s.move && r.0.result.dest in r.1
  {
    var made := AfterMkdir(disk, plan);
    match FirstFailure(sourceFile, s, plan, Writable(made, plan))
    case Some(c) => (Thrown(Tag + Message(c, plan)), made)
    case None =>
      MakeDirsKeeps(disk, plan);
      var after := if s.move then MoveTo(made, plan.source, plan.target)
                   else CopyTo(made, plan.source, plan.target);
      (Done(CopyResult(plan.source, plan.target, s.move)), after)
  }

  /** Making the target folder keeps every entry already on the disk. */
  lemma MakeDirsKeeps(disk: Disk, plan: Plan)
    ensures forall p :: p in disk ==> p in AfterMkdir(disk, plan) && AfterMkdir(disk, plan)[p] == disk[p]
  {
    if Truthy(plan.targetFolder) {
      MakeDirsEffect(disk, plan.targetFolder.value);
    }
  }

  /** After mkdir the target folder is writable exactly when it is truthy:
      `badTargetFolder` can only come from an empty or null folder. */
  lemma MadeWritable(disk: Disk, plan: Plan)
    ensures Writable(AfterMkdir(disk, plan), plan) <==> Truthy(plan.targetFolder)
  {
    if Truthy(plan.targetFolder) {
      MakeDirsEffect(disk, plan.targetFolder.value);
    }
  }

  /** For any plan that agrees with the disk, the call succeeds exactly
      when every validation passes. */
  lemma ExecuteSucceeds(disk: Disk, sourceFile: Option<string>, s: Settings, plan: Plan)
    requires Probed(disk, plan)
    ensures Execute(disk, sourceFile, s, plan).0.Done? <==>
      !Truthy(s.fileExtension) && Truthy(sourceFile) &&
      plan.source != "" && plan.source in disk && disk[plan.source].File? &&
      !MissingTarget(s) && !AmbiguousTarget(s) && Truthy(plan.targetFolder)
  {
    var made := AfterMkdir(disk, plan);
    MadeWritable(disk, plan);
    var w := Writable(made, plan);
    assert Fails(FileExtensionSet, sourceFile, s, plan, w) == Truthy(s.fileExtension);
    assert Fails(NoSourceFile, sourceFile, s, plan, w) == !Truthy(sourceFile);
    assert Fails(SourceMissing, sourceFile, s, plan, w) == !plan.sourceExists;
    assert Fails(SourceNotFile, sourceFile, s, plan, w) == !plan.sourceIsFile;
    assert Fails(NoTarget, sourceFile, s, plan, w) == MissingTarget(s);
    assert Fails(BothTargets, sourceFile, s, plan, w) == AmbiguousTarget(s);
    assert Fails(FolderUnwritable, sourceFile, s, plan, w) == !w;
  }

  /** A non-empty folder is among the folders made for it. */
  lemma FolderInAncestors(folder: string)
    requires folder != ""
    ensures folder in Ancestors(folder)
  {
    assert folder[..|folder|] == folder;
  }

  /** Making the folders adds only directories and keeps every entry. */
  lemma MakeDirsEffect(disk: Disk, folder: string)
    ensures forall p :: p in disk ==> p in MakeDirs(disk, folder) && MakeDirs(disk, folder)[p] == disk[p]
    ensures forall p :: p in MakeDirs(disk, folder) && p !in disk ==> p in Ancestors(folder) && MakeDirs(disk, folder)[p] == Dir
    ensures forall a :: a in Ancestors(folder) ==> a in MakeDirs(disk, folder)
    ensures folder != "" ==> folder in MakeDirs(disk, folder)
  {
    if folder != "" {
      FolderInAncestors(folder);
    }
  }

  /** The target folder exists after it is made, so the last validation
      fails exactly when no target folder was derived: `cp` succeeds iff
      no file extension is asked for, the source names an existing regular
      file, exactly one target is given and a target folder was derived. */
  lemma TransferSucceeds(disk: Disk, sourceFile: Option<string>, s: Settings)
    ensures var plan := Resolve(disk, sourceFile, s);
      Transfer(disk, sourceFile, s).0.Done? <==>
        !Truthy(s.fileExtension) && Truthy(sourceFile) &&
        plan.source != "" && plan.source in disk && disk[plan.source].File? &&
        !MissingTarget(s) && !AmbiguousTarget(s) && Truthy(plan.targetFolder)
  {
    ExecuteSucceeds(disk, sourceFile, s, Resolve(disk, sourceFile, s));
  }

  /** When `cp` throws, the message is the tag and the first failing
      validation's message, and neither a copy nor a rename happened: every
      entry is as it was, and only directories were added. */
  lemma TransferFailure(disk: Disk, sourceFile: Option<string>, s: Settings)
    requires Transfer(disk, sourceFile, s).0.Thrown?
    ensures var plan := Resolve(disk, sourceFile, s);
      var made := AfterMkdir(disk, plan);
      var c := FirstFailure(sourceFile, s, plan, Writable(made, plan));
      c.Some? && Transfer(disk, sourceFile, s).0.message == Tag + Message(c.value, plan)
    ensures var after := Transfer(disk, sourceFile, s).1;
      (forall p :: p in disk ==> p in after && after[p] == disk[p]) &&
      (forall p :: p in after && p !in disk ==> after[p] == Dir)
  {
    var plan := Resolve(disk, sourceFile, s);
    if Truthy(plan.targetFolder) {
      MakeDirsEffect(disk, plan.targetFolder.value);
    }
  }

  /** The target folder and every folder above it exist afterwards, whether
      or not a validation then fails; those that did not exist, and those
      that were already directories, are directories. */
  lemma TransferMakesFolders(disk: Disk, sourceFile: Option<string>, s: Settings)
    requires Truthy(Resolve(disk, sourceFile, s).targetFolder)
    ensures var plan := Resolve(disk, sourceFile, s);
      var after := Transfer(disk, sourceFile, s).1;
      forall a :: a in Ancestors(plan.targetFolder.value) && (a !in disk || disk[a] == Dir) && a != plan.target ==>
        a in after && after[a] == Dir
  {
    var plan := Resolve(disk, sourceFile, s);
    MakeDirsEffect(disk, plan.targetFolder.value);
  }

  /** On success the result names the source and the target, the target
      holds the source's content, a copy keeps the source and a move
      removes it. */
  lemma TransferSuccess(disk: Disk, sourceFile: Option<string>, s: Settings)
    ensures var plan := Resolve(disk, sourceFile, s);
      var (out, after) := Transfer(disk, sourceFile, s);
      out.Done? ==>
      && out.result == CopyResult(plan.source, plan.target, s.move)
      && plan.source in disk && disk[plan.source].File?
      && plan.target in after && after[plan.target] == disk[plan.source]
      && (!s.move ==> plan.source in after && after[plan.source] == disk[plan.source])
      && (s.move && plan.source != plan.target ==> plan.source !in after)
  {
    var plan := Resolve(disk, sourceFile, s);
    if Truthy(plan.targetFolder) {
      MakeDirsEffect(disk, plan.targetFolder.value);
    }
  }

  /** Apart from the source, the target and the folders made, no path
      changes. */
  lemma TransferFrame(disk: Disk, sourceFile: Option<string>, s: Settings, p: string)
    requires var plan := Resolve(disk, sourceFile, s);
      p != plan.source && p != plan.target &&
      (Truthy(plan.targetFolder) ==> p !in Ancestors(plan.targetFolder.value))
    ensures var after := Transfer(disk, sourceFile, s).1;
      (p in after <==> p in disk) && (p in disk ==> after[p] == disk[p])
  {
    var plan := Resolve(disk, sourceFile, s);
    if Truthy(plan.targetFolder) {
      MakeDirsEffect(disk, plan.targetFolder.value);
    }
  }

  /** The plan depends on the disk only through the entry at the source. */
  lemma ResolveSameSource(d1: Disk, d2: Disk, sourceFile: Option<string>, s: Settings)
    requires var source := Resolve(d1, sourceFile, s).source;
      (source in d1 <==> source in d2) && (source in d1 ==> d1[source] == d2[source])
    ensures Resolve(d1, sourceFile, s) == Resolve(d2, sourceFile, s)
  {
  }

  /** Copying is idempotent: once a copy has succeeded, the same call on the
      resulting disk succeeds with the same record and changes nothing. */
  lemma CopyIdempotent(disk: Disk, sourceFile: Option<string>, s: Settings)
    requires !s.move && Transfer(disk, sourceFile, s).0.Done?
    ensures var (out, after) := Transfer(disk, sourceFile, s);
      Transfer(after, sourceFile, s) == (out, after)
  {
    var plan := Resolve(disk, sourceFile, s);
    var after := Transfer(disk, sourceFile, s).1;
    ExecuteAgain(disk, sourceFile, s, plan);
    ResolveSameSource(disk, after, sourceFile, s);
  }

  /** The copy step for any plan that agrees with the disk, run a second
      time on its own result. */
  lemma ExecuteAgain(disk: Disk, sourceFile: Option<string>, s: Settings, plan: Plan)
    requires Probed(disk, plan)
    requires !s.move && Execute(disk, sourceFile, s, plan).0.Done?
    ensures var (out, after) := Execute(disk, sourceFile, s, plan);
      && plan.source in disk && plan.source in after && after[plan.source] == disk[plan.source]
      && Probed(after, plan)
      && Execute(after, sourceFile, s, plan) == (out, after)
  {
    ExecuteSucceeds(disk, sourceFile, s, plan);
    var folder := plan.targetFolder.value;
    var made := AfterMkdir(disk, plan);
    MakeDirsEffect(disk, folder);
    var after := made[plan.target := disk[plan.source]];
    assert Execute(disk, sourceFile, s, plan).1 == after;
    assert after[plan.source] == disk[plan.source];
    assert MakeDirs(after, folder) == after by {
      MakeDirsEffect(after, folder);
      forall a | a in Ancestors(folder) ensures a in after {
        assert a in made;
      }
    }
    assert Writable(after, plan);
    assert FirstFailure(sourceFile, s, plan, true).None?;
    assert CopyTo(after, plan.source, plan.target) == after;
  }

  /** With an existing source file and no target key, `cp` reports the
      missing target, whatever else is wrong with the settings later in the
      chain. */
  lemma TransferNoTarget(disk: Disk, sourceFile: Option<string>, s: Settings)
    requires !Truthy(s.fileExtension) && Truthy(sourceFile)
    requires Resolve(disk, sourceFile, s).sourceIsFile
    requires MissingTarget(s)
    ensures Transfer(disk, sourceFile, s).0 == Thrown(Tag + "Must specify a target file or folder.")
  {
    var plan := Resolve(disk, sourceFile, s);
    var made := AfterMkdir(disk, plan);
    assert Fails(NoTarget, sourceFile, s, plan, Writable(made, plan));
  }

  /** Without a source file (and without the unimplemented extension
      option) `cp` reports the missing source. */
  lemma TransferNoSource(disk: Disk, sourceFile: Option<string>, s: Settings)
    requires !Truthy(s.fileExtension) && !Truthy(sourceFile)
    ensures Transfer(disk, sourceFile, s).0 == Thrown(Tag + "Must specify the source file.")
  {
    var plan := Resolve(disk, sourceFile, s);
    var made := AfterMkdir(disk, plan);
    assert Fails(NoSourceFile, sourceFile, s, plan, Writable(made, plan));
  }

  /** A target file directly under the root, such as "/x", has the
      dirname "/", which normalises to the empty string; the empty target
      folder is never made and counts as unwritable, so `cp` throws with an
      empty folder name in the message and leaves the disk alone. */
  lemma TransferRootTarget(disk: Disk, src: string, name: string)
    requires IsName(src) && src in disk && disk[src].File?
    requires IsName(name)
    ensures var s := Defaults.(targetFile := Some("/" + name));
      Transfer(disk, Some(src), s) == (Thrown(Tag + "Target folder cannot be written to: "), disk)
  {
    var s := Defaults.(targetFile := Some("/" + name));
    RootChild(name);
    assert StartFolder(s.cd) + src == src;
    assert StartFolder(s.cd) + Dirname(s.targetFile.value) == "/";
    NormalizeName(src);
    var plan := Resolve(disk, Some(src), s);
    assert plan.targetFolder == Some("");
    assert plan.source == src && plan.sourceIsFile;
    assert AfterMkdir(disk, plan) == disk;
    assert !Writable(disk, plan);
    assert FirstFailure(Some(src), s, plan, false) == Some(FolderUnwritable);
    var m := "Target folder cannot be written to: ";
    assert m + "" == m;
    assert Message(FolderUnwritable, plan) == m;
    assert Transfer(disk, Some(src), s) == (Thrown(Tag + Message(FolderUnwritable, plan)), disk);
  }

  /** The source "/" normalises to the empty string, which the existence
      probe treats as absent: `cp` reports a source that does not exist,
      with an empty name. */
  lemma TransferRootSource(disk: Disk, s: Settings)
    requires !Truthy(s.fileExtension) && !Truthy(s.cd)
    ensures Transfer(disk, Some("/"), s).0 == Thrown(Tag + "Source file does not exist: ")
  {
    RootChild("x");
    assert StartFolder(s.cd) + "/" == "/";
    var plan := Resolve(disk, Some("/"), s);
    assert plan.source == "" && !plan.sourceExists;
    var made := AfterMkdir(disk, plan);
    assert FirstFailure(Some("/"), s, plan, Writable(made, plan)) == Some(SourceMissing);
    var m := "Source file does not exist: ";
    assert m + "" == m;
  }

  /** An empty target file next to a target folder passes every check,
      since both checks test truthiness, but `??` keeps the empty string:
      the target is the start folder itself, here the empty path, and the
      copy is made there. */
  lemma TransferEmptyTargetFile(disk: Disk, src: string, folder: string)
    requires IsName(src) && src in disk && disk[src].File?
    requires IsName(folder)
    ensures var s := Defaults.(targetFile := Some(""), targetFolder := Some(folder));
      var (out, after) := Transfer(disk, Some(src), s);
      out == Done(CopyResult(src, "", false)) && "" in after && after[""] == disk[src]
  {
    var s := Defaults.(targetFile := Some(""), targetFolder := Some(folder));
    NormalizeName(src);
    NormalizeName(folder);
    assert StartFolder(s.cd) + src == src;
    assert StartFolder(s.cd) + folder == folder;
    assert StartFolder(s.cd) + "" == "";
    var plan := Resolve(disk, Some(src), s);
    assert plan == Plan(src, true, true, Some(folder), "");
    ExecuteSucceeds(disk, Some(src), s, plan);
    TransferSuccess(disk, Some(src), s);
  }

  /** A name normalises to itself and "." to ".". */
  lemma NormalizeName(n: string)
    requires IsName(n) || n == "."
    ensures Normalize(n) == n
  {
    SplitNoSep(n, '/');
    if IsName(n) {
      assert Keep([n]) == [n];
    } else {
      assert Keep([n]) == [];
    }
  }

  /** Folder mode: with only a target folder, the target is the source's
      file name inside the normalised target folder. */
  lemma FolderModeTarget(disk: Disk, sourceFile: Option<string>, s: Settings)
    requires s.targetFile.None? && Truthy(s.targetFolder)
    requires Resolve(disk, sourceFile, s).sourceIsFile
    requires Resolve(disk, sourceFile, s).source != "."
    ensures var plan := Resolve(disk, sourceFile, s);
      var folder := Normalize(StartFolder(s.cd) + s.targetFolder.value);
      && plan.targetFolder == Some(folder)
      && plan.target == InFolder(folder, Basename(plan.source))
      && Basename(plan.target) == Basename(plan.source)
      && (folder != "" ==> Dirname(plan.target) == folder)
  {
    var plan := Resolve(disk, sourceFile, s);
    var start := StartFolder(s.cd);
    var name := Basename(plan.source);
    BasenameOfNormalized(start + sourceFile.value);
    var f := start + s.targetFolder.value;
    assert start + (s.targetFolder.value + "/" + name) == f + "/" + name;
    NormalizeChild(f, name);
    InFolderNormalized(Normalize(f), name);
  }

  /** A target file without a '/' lands in the start folder. */
  lemma StartChildOfName(cd: Option<string>, name: string)
    requires IsName(name)
    ensures Normalize(StartFolder(cd) + name) == InFolder(Normalize(StartFolder(cd) + "."), name)
  {
    var start := StartFolder(cd);
    if start == "" {
      NormalizeName(name);
      NormalizeName(".");
      assert start + name == name && start + "." == ".";
    } else {
      var n := Normalize(cd.value);
      assert start + name == n + "/" + name;
      assert start + "." == n + "/" + ".";
      NormalizeChild(n, name);
      NormalizeSkips(n, ".");
    }
  }

  /** A target file `d/name` lands in the folder `d` under the start folder;
      an empty `d` is the root. */
  lemma StartChildOfPath(start: string, d: string, name: string)
    requires IsName(name)
    ensures Normalize(start + (d + "/" + name)) ==
      InFolder(Normalize(start + (if d == "" then "/" else d)), name)
  {
    assert start + (d + "/" + name) == (start + d) + "/" + name;
    NormalizeChild(start + d, name);
    if d == "" {
      assert start + "/" == start + "/" + "";
      NormalizeSkips(start, "");
      assert start + d == start;
    }
  }

  /** The normalised start folder followed by a target file ending in a
      name is that name inside the normalised folder part. */
  lemma StartChild(cd: Option<string>, t: string)
    requires t != "" && t[|t| - 1] != '/' && IsName(Basename(t))
    ensures Normalize(StartFolder(cd) + t) ==
      InFolder(Normalize(StartFolder(cd) + Dirname(t)), Basename(t))
  {
    assert StripTrailing(t) == t;
    var segs := Split(t, '/');
    var name := segs[|segs| - 1];
    JoinSplit(t, '/');
    if |segs| == 1 {
      assert t == name;
      StartChildOfName(cd, name);
    } else {
      var dirs := segs[..|segs| - 1];
      var d := Join(dirs, '/');
      assert dirs + [name] == segs;
      JoinSnoc(dirs, name, '/');
      assert t == d + "/" + name;
      StartChildOfPath(StartFolder(cd), d, name);
    }
  }

  /** A normalised folder other than "" holds the entry it is given as its
      folder part; "" is the root. */
  lemma InFolderNormalized(folder: string, name: string)
    requires IsName(name)
    requires folder == "" || folder[|folder| - 1] != '/'
    ensures Basename(InFolder(folder, name)) == name
    ensures folder != "" ==> Dirname(InFolder(folder, name)) == folder
  {
    if folder == "" {
      assert InFolder(folder, name) == "" + ['/'] + name;
      SplitConcat("", name, '/');
      SplitNoSep(name, '/');
    } else {
      InFolderParts(folder, name);
    }
  }

  /** File mode: when the target file ends in a name, the target is that
      name inside the normalised folder part of the target file. */
  lemma FileModeTarget(disk: Disk, sourceFile: Option<string>, s: Settings)
    requires Truthy(s.targetFile)
    requires var t := s.targetFile.value; t[|t| - 1] != '/' && IsName(Basename(t))
    ensures var plan := Resolve(disk, sourceFile, s);
      var t := s.targetFile.value;
      var folder := Normalize(StartFolder(s.cd) + Dirname(t));
      && plan.targetFolder == Some(folder)
      && plan.target == InFolder(folder, Basename(t))
      && Basename(plan.target) == Basename(t)
      && (folder != "" ==> Dirname(plan.target) == folder)
  {
    var t := s.targetFile.value;
    var folder := Normalize(StartFolder(s.cd) + Dirname(t));
    StartChild(s.cd, t);
    InFolderNormalized(folder, Basename(t));
  }

  /** The file system `cp` works on. */
  class FileSystem {
    var entries: Disk

    constructor (initial: Disk)
      ensures entries == initial
    {
      entries := initial;
    }

    /** `copyFile.cp(sourceFile, settings)`: make the target folder, pick
        the error, then rename or copy. */
    method Cp(sourceFile: Option<string>, settings: Settings) returns (out: Outcome)
      modifies this
      ensures (out, entries) == Transfer(old(entries), sourceFile, settings)
      ensures out.Thrown? ==> forall p :: p in old(entries) ==> p in entries && entries[p] == old(entries)[p]
    {
      ghost var before := entries;
      var plan := Resolve(entries, sourceFile, settings);
      if Truthy(plan.targetFolder) {
        entries := MakeDirs(entries, plan.targetFolder.value);
      }
      var failure := FirstFailure(sourceFile, settings, plan, Writable(entries, plan));
      if failure.Some? {
        out := Thrown(Tag + Message(failure.value, plan));
        TransferFailure(before, sourceFile, settings);
        return;
      }
      var content := entries[plan.source];
      if settings.move {
        entries := entries - {plan.source};
        entries := entries[plan.target := content];
      } else {
        entries := entries[plan.target := content];
      }
      out := Done(CopyResult(plan.source, plan.target, settings.move));
    }
  }
}
