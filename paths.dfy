/** Path strings as the transfer resolver sees them after Node's
    `path.normalize` and the `slash` package, followed by the removal of one
    trailing '/', and Node's `path.basename` / `path.dirname`. A path is
    worked on as its '/'-separated segments. */
module Paths {
  import opened Strings

  /** A segment that normalisation keeps and that names one entry. */
  predicate IsName(x: string)
  {
    x != "" && x != "." && '/' !in x
  }

  /** The segments normalisation keeps: empty ones (from repeated or
      trailing slashes) and "." are dropped. */
  function Keep(segs: seq<string>): (r: seq<string>)
    ensures |r| <= |segs|
    decreases |segs|
  {
    if segs == [] then []
    else if segs[0] == "" || segs[0] == "." then Keep(segs[1..])
    else [segs[0]] + Keep(segs[1..])
  }

  /** `path.normalize` then removal of a trailing '/', for a path that is not
      empty; the empty path stays empty. A root-only path ("/", "//", "/.")
      becomes empty, a relative path with nothing left becomes ".". */
  function Normalize(p: string): (r: string)
    ensures r == "" ==> p == "" || p[0] == '/'
    ensures r == "" || r[|r| - 1] != '/'
  {
    if p == [] then ""
    else
      var segs := Keep(Split(p, '/'));
      SplitPieces(p, '/');
      KeepNames(Split(p, '/'));
      JoinNames(segs);
      Assemble(p[0] == '/', Join(segs, '/'))
  }

  /** The normalised path from its joined segments: a leading '/' is put
      back on an absolute path, and a relative path with nothing left is
      ".". */
  function Assemble(absolute: bool, body: string): string
  {
    if absolute then (if body == "" then "" else "/" + body)
    else (if body == "" then "." else body)
  }

  /** Kept segments are names when the input segments have no '/'. */
  lemma {:induction false} KeepNames(segs: seq<string>)
    requires forall i :: 0 <= i < |segs| ==> '/' !in segs[i]
    ensures forall i :: 0 <= i < |Keep(segs)| ==> IsName(Keep(segs)[i])
    decreases |segs|
  {
    if segs != [] {
      KeepNames(segs[1..]);
    }
  }

  /** Keep leaves a sequence of names alone. */
  lemma {:induction false} KeepOfNames(segs: seq<string>)
    requires forall i :: 0 <= i < |segs| ==> IsName(segs[i])
    ensures Keep(segs) == segs
    decreases |segs|
  {
    if segs != [] {
      KeepOfNames(segs[1..]);
    }
  }

  /** Keep distributes over concatenation. */
  lemma {:induction false} KeepConcat(a: seq<string>, b: seq<string>)
    ensures Keep(a + b) == Keep(a) + Keep(b)
    decreases |a|
  {
    if a == [] {
      assert a + b == b;
    } else {
      assert (a + b)[0] == a[0];
      assert (a + b)[1..] == a[1..] + b;
      KeepConcat(a[1..], b);
      if a[0] != "" && a[0] != "." {
        calc {
          Keep(a + b);
          [a[0]] + Keep(a[1..] + b);
          [a[0]] + (Keep(a[1..]) + Keep(b));
          ([a[0]] + Keep(a[1..])) + Keep(b);
        }
      }
    }
  }

  /** A join of names starts with the first name, does not end in '/' and
      splits back into the names. */
  lemma JoinNames(segs: seq<string>)
    requires forall i :: 0 <= i < |segs| ==> IsName(segs[i])
    ensures segs != [] ==> Split(Join(segs, '/'), '/') == segs
    ensures segs != [] ==> IsName(segs[0]) && Join(segs, '/') != "" && Join(segs, '/')[0] == segs[0][0]
    ensures segs != [] ==> Join(segs, '/') != "."
    ensures var j := Join(segs, '/'); j == "" || j[|j| - 1] != '/'
  {
    if segs != [] {
      var j := Join(segs, '/');
      assert IsName(segs[0]);
      SplitJoin(segs, '/');
      JoinPrefix(segs);
      JoinLast(segs);
      SplitNoSep(".", '/');
    }
  }

  lemma JoinPrefix(segs: seq<string>)
    requires |segs| > 0 && segs[0] != ""
    ensures Join(segs, '/') != "" && Join(segs, '/')[0] == segs[0][0]
  {
    if |segs| > 1 {
      assert Join(segs, '/') == segs[0] + (['/'] + Join(segs[1..], '/'));
    }
  }

  lemma JoinLast(segs: seq<string>)
    requires |segs| > 0
    requires forall i :: 0 <= i < |segs| ==> IsName(segs[i])
    ensures var j := Join(segs, '/'); j != "" && j[|j| - 1] != '/'
  {
    var last := segs[|segs| - 1];
    assert IsName(last);
    JoinSnoc(segs[..|segs| - 1], last, '/');
    assert segs[..|segs| - 1] + [last] == segs;
    var j := Join(segs, '/');
    assert j[|j| - 1] == last[|last| - 1];
    assert last[|last| - 1] in last;
  }

  /** Normalising twice is the same as normalising once. */
  lemma NormalizeIdempotent(p: string)
    ensures Normalize(Normalize(p)) == Normalize(p)
  {
    if p != [] {
      var segs := Keep(Split(p, '/'));
      SplitPieces(p, '/');
      KeepNames(Split(p, '/'));
      JoinNames(segs);
      KeepOfNames(segs);
      var body := Join(segs, '/');
      if body == "" {
        SplitNoSep(".", '/');
        assert Keep(["."]) == [];
      } else if p[0] == '/' {
        SplitConcat("", body, '/');
        assert "" + ['/'] + body == "/" + body;
        KeepConcat([""], segs);
      }
    }
  }

  /** Only the empty string, or a path made of slashes and "." segments
      after a leading '/', normalises to the empty string. */
  lemma NormalizeEmpty(p: string)
    ensures Normalize(p) == "" <==> p == "" || (p[0] == '/' && Keep(Split(p, '/')) == [])
  {
    if p != [] {
      SplitPieces(p, '/');
      KeepNames(Split(p, '/'));
      JoinNames(Keep(Split(p, '/')));
    }
  }

  /** Appending "/" or "/." does not change the normalised path: a trailing
      separator is dropped. */
  lemma NormalizeSkips(p: string, x: string)
    requires x == "" || x == "."
    ensures Normalize(p + "/" + x) == Normalize(p)
  {
    var q := p + "/" + x;
    assert q == p + ['/'] + x;
    SplitConcat(p, x, '/');
    SplitNoSep(x, '/');
    KeepConcat(Split(p, '/'), [x]);
    assert Keep([x]) == [];
    if p == [] {
      assert Keep(Split(p, '/')) == [];
    } else {
      assert q[0] == p[0];
      assert Keep(Split(q, '/')) == Keep(Split(p, '/'));
    }
  }

  /** The path of entry `name` inside the normalised folder `folder`. */
  function InFolder(folder: string, name: string): string
  {
    if folder == "." then name
    else if folder == "" then "/" + name
    else folder + "/" + name
  }

  /** Normalising `folder + '/' + name` puts `name` inside the normalised
      folder. */
  lemma NormalizeChild(folder: string, name: string)
    requires IsName(name)
    ensures Normalize(folder + "/" + name) == InFolder(Normalize(folder), name)
  {
    var q := folder + "/" + name;
    var kf := Keep(Split(folder, '/'));
    var bf := Join(kf, '/');
    var absolute := folder == [] || folder[0] == '/';
    KeepSplitChild(folder, name);
    SplitPieces(folder, '/');
    KeepNames(Split(folder, '/'));
    JoinNames(kf);
    JoinSnoc(kf, name, '/');
    assert Normalize(folder) == Assemble(absolute, bf) by {
      if folder == [] {
        assert kf == [];
      }
    }
    assert q[0] == '/' <==> absolute by {
      if folder != [] {
        assert q[0] == folder[0];
      }
    }
    assert Normalize(q) == Assemble(absolute, if bf == "" then name else bf + "/" + name);
    AssembleChild(absolute, bf, name);
  }

  /** The kept segments of `folder + '/' + name` are those of the folder
      followed by the name. */
  lemma KeepSplitChild(folder: string, name: string)
    requires IsName(name)
    ensures Keep(Split(folder + "/" + name, '/')) == Keep(Split(folder, '/')) + [name]
  {
    assert folder + "/" + name == folder + ['/'] + name;
    SplitConcat(folder, name, '/');
    SplitNoSep(name, '/');
    KeepConcat(Split(folder, '/'), [name]);
    assert Keep([name]) == [name];
  }

  /** Assembling a body with one more name is putting the name inside the
      assembled folder. */
  lemma AssembleChild(absolute: bool, body: string, name: string)
    requires IsName(name) && body != "."
    ensures Assemble(absolute, if body == "" then name else body + "/" + name) ==
      InFolder(Assemble(absolute, body), name)
  {
    if body != "" {
      assert ("/" + body) + "/" + name == "/" + (body + "/" + name);
    }
  }

  /** Trailing slashes removed, keeping at least one character, as Node's
      basename and dirname do before they look for the last separator. */
  function StripTrailing(p: string): (r: string)
    ensures |r| <= |p| && r == p[..|r|]
    ensures |r| <= 1 || r[|r| - 1] != '/'
    decreases |p|
  {
    if |p| > 1 && p[|p| - 1] == '/' then StripTrailing(p[..|p| - 1]) else p
  }

  /** `path.basename`: the last segment. */
  function Basename(p: string): (r: string)
    ensures '/' !in r
  {
    var segs := Split(StripTrailing(p), '/');
    SplitPieces(StripTrailing(p), '/');
    segs[|segs| - 1]
  }

  /** `path.dirname`: everything before the last segment, "." when there is
      no separator and "/" when only the root is left (also for "//a",
      where Node keeps "//"). */
  function Dirname(p: string): (r: string)
    ensures r != ""
  {
    var segs := Split(StripTrailing(p), '/');
    if |segs| == 1 then "."
    else
      var d := Join(segs[..|segs| - 1], '/');
      if d == "" then "/" else d
  }

  /** A name directly under the root has the dirname "/", and "/"
      normalises to the empty string, like the empty path. */
  lemma RootChild(name: string)
    requires IsName(name)
    ensures Dirname("/" + name) == "/"
    ensures Normalize("/") == ""
  {
    var t := "/" + name;
    assert t[|t| - 1] == name[|name| - 1];
    assert StripTrailing(t) == t;
    assert t == "" + ['/'] + name;
    SplitConcat("", name, '/');
    SplitNoSep("", '/');
    SplitNoSep(name, '/');
    assert Split(t, '/')[..1] == [""];
    SplitConcat("", "", '/');
    assert "" + ['/'] + "" == "/";
    assert Keep(["", ""]) == [];
  }

  /** The entry placed in a folder is named as it was and sits in that
      folder. */
  lemma InFolderParts(folder: string, name: string)
    requires IsName(name)
    requires folder != "" && (folder[|folder| - 1] != '/')
    ensures Basename(InFolder(folder, name)) == name
    ensures Dirname(InFolder(folder, name)) == folder
    ensures folder != "." ==> |InFolder(folder, name)| > |folder|
  {
    SplitNoSep(name, '/');
    var t := InFolder(folder, name);
    assert t[|t| - 1] == name[|name| - 1];
    if folder != "." {
      assert t == folder + ['/'] + name;
      SplitConcat(folder, name, '/');
      var sf := Split(folder, '/');
      assert Split(t, '/')[..|Split(t, '/')| - 1] == sf;
      JoinSplit(folder, '/');
    }
  }

  /** A normalised path other than "" and "." ends in a name. */
  lemma BasenameOfNormalized(p: string)
    requires Normalize(p) != "" && Normalize(p) != "."
    ensures IsName(Basename(Normalize(p)))
  {
    var segs := Keep(Split(p, '/'));
    SplitPieces(p, '/');
    KeepNames(Split(p, '/'));
    JoinNames(segs);
    var body := Join(segs, '/');
    var r := Normalize(p);
    if p[0] == '/' {
      assert r == "" + ['/'] + body;
      SplitConcat("", body, '/');
    }
  }
}
