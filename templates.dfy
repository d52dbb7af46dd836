/** The `{{expr}}` placeholders of a CLI target (bin/cli.js:39-40, 65): each
    leftmost, non-overlapping token whose expression has no braces is
    replaced by a dotted-path lookup of the expression in `{ pkg: manifest }`;
    a lookup that finds nothing gives a fixed sentinel. */
module Templates {
  import opened Values
  import opened Strings

  /** A JSON value of the manifest. Numbers and booleans are scalars holding
      their text; arrays are objects keyed by index. */
  datatype Json = Null | Scalar(text: string) | Obj(fields: map<string, Json>)

  /** What a lookup that finds nothing yields. */
  const MissingField := "MISSING-FIELD-ERROR"

  /** `data[key]`: undefined (None) unless `data` is an object with that key. */
  function Get(data: Json, key: string): Option<Json>
  {
    if data.Obj? && key in data.fields then Some(data.fields[key]) else None
  }

  /** The dotted-path lookup of the template engine: null or undefined
      stops the walk, the last key is read from what is reached. */
  function Lookup(data: Option<Json>, path: seq<string>): (r: Option<Json>)
    requires |path| >= 1
    decreases |path|
  {
    if data.None? || data.value.Null? then None
    else if |path| == 1 then Get(data.value, path[0])
    else Lookup(Get(data.value, path[0]), path[1..])
  }

  /** The text a token is replaced with: the looked-up value as JavaScript
      turns it into a string, or the sentinel when the lookup is null or
      undefined. */
  function Field(manifest: Json, expr: string): string
  {
    match Lookup(Some(Obj(map["pkg" := manifest])), Split(expr, '.'))
    case None => MissingField
    case Some(Null) => MissingField
    case Some(Scalar(t)) => t
    case Some(Obj(_)) => "[object Object]"
  }

  predicate IsBrace(c: char)
  {
    c == '{' || c == '}'
  }

  predicate BraceFree(s: string)
  {
    forall i :: 0 <= i < |s| ==> !IsBrace(s[i])
  }

  /** The length of the longest brace-free prefix of `s`. */
  function BraceFreePrefix(s: string): (k: nat)
    ensures k <= |s|
    ensures k < |s| ==> IsBrace(s[k])
    decreases |s|
  {
    if s == [] || IsBrace(s[0]) then 0 else 1 + BraceFreePrefix(s[1..])
  }

  /** The prefix it measures is indeed brace-free. */
  lemma {:induction false} PrefixBraceFree(s: string)
    ensures BraceFree(s[..BraceFreePrefix(s)])
    decreases |s|
  {
    if s != [] && !IsBrace(s[0]) {
      PrefixBraceFree(s[1..]);
      var k := BraceFreePrefix(s[1..]);
      assert s[..k + 1] == [s[0]] + s[1..][..k];
    }
  }

  /** Where the pattern `{{[^{}]*}}` matches at the start of `s`: the index
      of the closing "}}". */
  function TokenAt(s: string): (r: Option<nat>)
    ensures r.Some? ==> 2 <= r.value && r.value + 2 <= |s|
    ensures r.Some? ==> s[..2] == "{{" && s[r.value..r.value + 2] == "}}"
  {
    if |s| >= 2 && s[0] == '{' && s[1] == '{' then
      var k := 2 + BraceFreePrefix(s[2..]);
      if k + 2 <= |s| && s[k] == '}' && s[k + 1] == '}' then Some(k) else None
    else None
  }

  /** The text between the braces of a match has no brace. */
  lemma TokenAtBraceFree(s: string)
    requires TokenAt(s).Some?
    ensures BraceFree(s[2..TokenAt(s).value])
  {
    var k := 2 + BraceFreePrefix(s[2..]);
    PrefixBraceFree(s[2..]);
    assert s[2..][..k - 2] == s[2..k];
  }

  /** A match at the start is found, and the match is unique. */
  lemma TokenAtFinds(e: string, rest: string)
    requires BraceFree(e)
    ensures TokenAt("{{" + e + "}}" + rest) == Some(|e| + 2)
  {
    var s := "{{" + e + "}}" + rest;
    var t := s[2..];
    PrefixBraceFree(t);
    assert t[..|e|] == e;
    assert t[|e|] == '}';
  }

  /** A piece of a template: one character of plain text or a token with
      its expression. */
  datatype Piece = Lit(c: char) | Token(expr: string)

  /** The template cut into pieces the way a global regex replace scans it:
      left to right, a token where one starts, otherwise one character. */
  function Tokenize(s: string): seq<Piece>
    decreases |s|
  {
    if s == [] then []
    else match TokenAt(s)
      case Some(k) => [Token(s[2..k])] + Tokenize(s[k + 2..])
      case None => [Lit(s[0])] + Tokenize(s[1..])
  }

  /** The text a piece stands for in the template. */
  function PieceText(p: Piece): string
  {
    match p
    case Lit(c) => [c]
    case Token(e) => "{{" + e + "}}"
  }

  /** The text a piece becomes once tokens are replaced. */
  function PieceValue(p: Piece, value: string -> string): string
  {
    match p
    case Lit(c) => [c]
    case Token(e) => value(e)
  }

  /** The pieces written back as text. */
  function Untokenize(ps: seq<Piece>): string
  {
    if ps == [] then "" else PieceText(ps[0]) + Untokenize(ps[1..])
  }

  /** The pieces with every token replaced by its field. */
  function Render(ps: seq<Piece>, value: string -> string): string
  {
    if ps == [] then "" else PieceValue(ps[0], value) + Render(ps[1..], value)
  }

  lemma UntokenizeCons(p: Piece, ps: seq<Piece>)
    ensures Untokenize([p] + ps) == PieceText(p) + Untokenize(ps)
  {
    assert ([p] + ps)[1..] == ps;
  }

  lemma RenderCons(p: Piece, ps: seq<Piece>, value: string -> string)
    ensures Render([p] + ps, value) == PieceValue(p, value) + Render(ps, value)
  {
    assert ([p] + ps)[1..] == ps;
  }

  /** One step of the scan: a token at the front, or one plain character. */
  lemma TokenizeStep(s: string)
    requires s != []
    ensures TokenAt(s).Some? ==> Tokenize(s) == [Token(s[2..TokenAt(s).value])] + Tokenize(s[TokenAt(s).value + 2..])
    ensures TokenAt(s).None? ==> Tokenize(s) == [Lit(s[0])] + Tokenize(s[1..])
  {
  }

  /** `target.replace(/{{[^{}]*}}/g, getPackageField)`. */
  function Substitute(s: string, manifest: Json): string
  {
    Render(Tokenize(s), Fields(manifest))
  }

  /** The text each token expression is replaced with. */
  function Fields(manifest: Json): string -> string
  {
    e => Field(manifest, e)
  }

  /** Every token the scan finds has a brace-free expression, as the
      pattern `[^{}]*` demands. */
  lemma {:induction false} TokensBraceFree(s: string)
    ensures forall i :: 0 <= i < |Tokenize(s)| && Tokenize(s)[i].Token? ==> BraceFree(Tokenize(s)[i].expr)
    decreases |s|
  {
    if s != [] {
      TokenizeStep(s);
      match TokenAt(s)
      case Some(k) =>
        TokenAtBraceFree(s);
        TokensBraceFree(s[k + 2..]);
      case None => TokensBraceFree(s[1..]);
    }
  }

  /** The text in front of the rest of the scan is what the first piece
      stands for. */
  lemma FirstPieceText(s: string)
    requires s != []
    ensures TokenAt(s).Some? ==> s == PieceText(Token(s[2..TokenAt(s).value])) + s[TokenAt(s).value + 2..]
    ensures TokenAt(s).None? ==> s == PieceText(Lit(s[0])) + s[1..]
  {
    if TokenAt(s).Some? {
      var k := TokenAt(s).value;
      assert s == s[..2] + s[2..k] + s[k..k + 2] + s[k + 2..];
    }
  }

  /** Cutting a template into pieces loses nothing. */
  lemma {:induction false} TokenizeRoundTrip(s: string)
    ensures Untokenize(Tokenize(s)) == s
    decreases |s|
  {
    if s != [] {
      TokenizeStep(s);
      FirstPieceText(s);
      match TokenAt(s)
      case Some(k) =>
        TokenizeRoundTrip(s[k + 2..]);
        UntokenizeCons(Token(s[2..k]), Tokenize(s[k + 2..]));
      case None =>
        TokenizeRoundTrip(s[1..]);
        UntokenizeCons(Lit(s[0]), Tokenize(s[1..]));
    }
  }

  /** Piece `j` of `ps` is where a leftmost scan of `s` puts it: it starts
      where the text of the pieces before it ends, inside `s`; a plain
      character is taken exactly where no token opens, and a token exactly
      where one opens, ending at its first closing "}}". */
  predicate ScanAt(s: string, ps: seq<Piece>, j: nat)
    requires j < |ps|
  {
    var o := |Untokenize(ps[..j])|;
    && o < |s|
    && (ps[j].Lit? ==> TokenAt(s[o..]).None? && s[o] == ps[j].c)
    && (ps[j].Token? ==> TokenAt(s[o..]) == Some(|ps[j].expr| + 2))
  }

  /** The scan is leftmost and loses nothing: every piece of it is where a
      leftmost scan puts it. */
  lemma {:induction false} TokenizeScan(s: string, j: nat)
    requires j < |Tokenize(s)|
    ensures ScanAt(s, Tokenize(s), j)
    decreases |s|
  {
    if j == 0 {
      ScanFirst(s);
    } else {
      var rest := ScanRest(s);
      TokenizeScan(rest, j - 1);
      ScanShift(s, rest, Tokenize(s)[0], Tokenize(rest), j);
    }
  }

  /** The text left after the first piece of the scan. */
  function ScanRest(s: string): (rest: string)
    requires s != []
    ensures Tokenize(s) == [Tokenize(s)[0]] + Tokenize(rest)
    ensures s == PieceText(Tokenize(s)[0]) + rest
  {
    TokenizeStep(s);
    FirstPieceText(s);
    if TokenAt(s).Some? then s[TokenAt(s).value + 2..] else s[1..]
  }

  /** The first piece of the scan sits at the start of the text. */
  lemma ScanFirst(s: string)
    requires Tokenize(s) != []
    ensures ScanAt(s, Tokenize(s), 0)
  {
    assert Tokenize(s)[..0] == [];
    TokenizeStep(s);
  }

  /** A piece in place after the first piece stays in place once the first
      piece's text is put in front. */
  lemma ScanShift(s: string, rest: string, p: Piece, qs: seq<Piece>, j: nat)
    requires s == PieceText(p) + rest
    requires 0 < j <= |qs|
    requires ScanAt(rest, qs, j - 1)
    ensures ScanAt(s, [p] + qs, j)
  {
    var ps := [p] + qs;
    var o' := |Untokenize(qs[..j - 1])|;
    var t := rest[o'..];
    var q := qs[j - 1];
    assert q.Lit? ==> TokenAt(t).None? && t[0] == q.c;
    assert q.Token? ==> TokenAt(t) == Some(|q.expr| + 2);
    assert ps[..j] == [p] + qs[..j - 1];
    UntokenizeCons(p, qs[..j - 1]);
    var o := |Untokenize(ps[..j])|;
    assert o == |PieceText(p)| + o';
    DropFront(PieceText(p), rest, o');
    assert s[o..] == t;
    assert ps[j] == q;
  }

  /** Dropping a prefix and then `k` more characters. */
  lemma DropFront(a: string, b: string, k: nat)
    requires k <= |b|
    ensures (a + b)[|a| + k..] == b[k..]
  {
  }

  /** A token at the front is replaced by its field. */
  lemma SubstituteToken(e: string, rest: string, manifest: Json)
    requires BraceFree(e)
    ensures Substitute("{{" + e + "}}" + rest, manifest) == Field(manifest, e) + Substitute(rest, manifest)
  {
    var s := "{{" + e + "}}" + rest;
    TokenAtFinds(e, rest);
    TokenizeStep(s);
    assert s[2..|e| + 2] == e;
    assert s[|e| + 4..] == rest;
    RenderCons(Token(e), Tokenize(rest), Fields(manifest));
  }

  /** Plain text as pieces: one literal per character. */
  function Lits(a: string): (r: seq<Piece>)
    ensures |r| == |a|
  {
    if a == [] then [] else [Lit(a[0])] + Lits(a[1..])
  }

  /** Rendering distributes over concatenation of pieces. */
  lemma {:induction false} RenderAppend(xs: seq<Piece>, ys: seq<Piece>, value: string -> string)
    ensures Render(xs + ys, value) == Render(xs, value) + Render(ys, value)
    decreases |xs|
  {
    if xs == [] {
      assert xs + ys == ys;
    } else {
      var v := PieceValue(xs[0], value);
      RenderAppend(xs[1..], ys, value);
      assert xs + ys == [xs[0]] + (xs[1..] + ys);
      RenderCons(xs[0], xs[1..] + ys, value);
      RenderCons(xs[0], xs[1..], value);
      assert xs == [xs[0]] + xs[1..];
      assert v + (Render(xs[1..], value) + Render(ys, value)) ==
        (v + Render(xs[1..], value)) + Render(ys, value);
    }
  }

  /** Literals render as the characters they hold. */
  lemma {:induction false} RenderOfLits(a: string, value: string -> string)
    ensures Render(Lits(a), value) == a
    decreases |a|
  {
    if a != [] {
      RenderOfLits(a[1..], value);
      RenderCons(Lit(a[0]), Lits(a[1..]), value);
      assert a == [a[0]] + a[1..];
    }
  }

  /** Literals in front render as their characters. */
  lemma RenderLits(a: string, ps: seq<Piece>, value: string -> string)
    ensures Render(Lits(a) + ps, value) == a + Render(ps, value)
  {
    RenderAppend(Lits(a), ps, value);
    RenderOfLits(a, value);
  }

  /** Text without '{' in front of the rest is scanned character by
      character. */
  lemma {:induction false} TokenizePlain(a: string, rest: string)
    requires '{' !in a
    ensures Tokenize(a + rest) == Lits(a) + Tokenize(rest)
    decreases |a|
  {
    if a == [] {
      assert a + rest == rest;
    } else {
      var s := a + rest;
      assert s[0] == a[0] && s[1..] == a[1..] + rest;
      assert TokenAt(s).None?;
      TokenizeStep(s);
      assert '{' !in a[1..] by {
        forall c | c in a[1..] ensures c != '{' { assert c in a; }
      }
      TokenizePlain(a[1..], rest);
      assert [Lit(a[0])] + (Lits(a[1..]) + Tokenize(rest)) == Lits(a) + Tokenize(rest);
    }
  }

  /** Text without '{' in front of the rest passes through unchanged. */
  lemma SubstitutePlain(a: string, rest: string, manifest: Json)
    requires '{' !in a
    ensures Substitute(a + rest, manifest) == a + Substitute(rest, manifest)
  {
    TokenizePlain(a, rest);
    RenderLits(a, Tokenize(rest), Fields(manifest));
  }

  /** No match of the pattern starts anywhere in `s`. */
  predicate NoMatch(s: string)
  {
    forall i :: 0 <= i < |s| ==> TokenAt(s[i..]).None?
  }

  /** Text where no match starts, even one holding "{{", is scanned
      character by character. */
  lemma {:induction false} TokenizeNoToken(s: string)
    requires NoMatch(s)
    ensures Tokenize(s) == Lits(s)
    decreases |s|
  {
    if s != [] {
      assert s[0..] == s;
      TokenizeStep(s);
      assert NoMatch(s[1..]) by {
        forall i | 0 <= i < |s[1..]| ensures TokenAt(s[1..][i..]).None? {
          assert s[1..][i..] == s[i + 1..];
        }
      }
      TokenizeNoToken(s[1..]);
    }
  }

  /** A target where no match starts passes through unchanged. */
  lemma SubstituteNoToken(s: string, manifest: Json)
    requires NoMatch(s)
    ensures Substitute(s, manifest) == s
  {
    TokenizeNoToken(s);
    RenderLits(s, [], Fields(manifest));
    assert Lits(s) + [] == Lits(s);
    assert s + "" == s;
  }

  /** Two opening braces start at index `i`. */
  predicate OpensAt(s: string, i: int)
  {
    0 <= i && i + 1 < |s| && s[i] == '{' && s[i + 1] == '{'
  }

  /** A text without "{{" anywhere has no match. */
  lemma NoOpenNoMatch(s: string)
    requires forall i :: !OpensAt(s, i)
    ensures NoMatch(s)
  {
    forall i | 0 <= i < |s| ensures TokenAt(s[i..]).None? {
      assert !OpensAt(s, i);
    }
  }

  /** NoMatch is the wider condition: "{{e}" with a brace-free `e`, such as
      the typo "{{pkg.name}", opens with "{{" and still has no match. */
  lemma UnclosedNoMatch(e: string)
    requires BraceFree(e)
    ensures OpensAt("{{" + e + "}", 0) && NoMatch("{{" + e + "}")
  {
    var s := "{{" + e + "}";
    assert forall j :: 2 <= j < |s| - 1 ==> s[j] == e[j - 2];
    forall i | 0 <= i < |s| ensures TokenAt(s[i..]).None? {
      if i > 0 {
        assert i + 1 < |s| ==> s[i + 1] != '{';
      }
    }
  }

  /** `pkg.name` reads the manifest's field `name`. */
  lemma FieldOfPkg(manifest: Json, name: string)
    requires '.' !in name
    ensures Field(manifest, "pkg." + name) ==
      match Get(manifest, name)
      case None => MissingField
      case Some(Null) => MissingField
      case Some(Scalar(t)) => t
      case Some(Obj(_)) => "[object Object]"
  {
    assert "pkg." + name == "pkg" + ['.'] + name;
    SplitConcat("pkg", name, '.');
    SplitNoSep("pkg", '.');
    SplitNoSep(name, '.');
    var path := Split("pkg." + name, '.');
    assert path == ["pkg", name];
    assert path[1..] == [name];
    var root := Obj(map["pkg" := manifest]);
    assert Get(root, "pkg") == Some(manifest);
    assert Lookup(Some(root), path) == Lookup(Some(manifest), [name]);
  }

  /** An expression not starting at `pkg` finds nothing. */
  lemma FieldOutsidePkg(manifest: Json, expr: string)
    requires Split(expr, '.')[0] != "pkg"
    ensures Field(manifest, expr) == MissingField
  {
    var path := Split(expr, '.');
    var root := Obj(map["pkg" := manifest]);
    assert Get(root, path[0]) == None;
    if |path| > 1 {
      assert Lookup(Some(root), path) == Lookup(None, path[1..]);
    }
  }

  /** Plain text, then a token, then the rest. */
  lemma SubstituteTextToken(s: string, a: string, e: string, rest: string, m: Json)
    requires '{' !in a && BraceFree(e)
    requires s == a + ("{{" + e + "}}" + rest)
    ensures Substitute(s, m) == a + (Field(m, e) + Substitute(rest, m))
  {
    SubstitutePlain(a, "{{" + e + "}}" + rest, m);
    SubstituteToken(e, rest, m);
  }

  /** Text, a token, text, a token, text, a token, text: each token is
      replaced by its field and the text around them is kept. */
  lemma SubstituteThree(a: string, e1: string, b: string, e2: string,
                        c: string, e3: string, d: string, m: Json)
    requires '{' !in a && '{' !in b && '{' !in c && '{' !in d
    requires BraceFree(e1) && BraceFree(e2) && BraceFree(e3)
    ensures Substitute(a + ("{{" + e1 + "}}" + (b + ("{{" + e2 + "}}" + (c + ("{{" + e3 + "}}" + d))))), m)
      == a + (Field(m, e1) + (b + (Field(m, e2) + (c + (Field(m, e3) + d)))))
  {
    var t3 := "{{" + e3 + "}}" + d;
    var t2 := "{{" + e2 + "}}" + (c + t3);
    var t1 := "{{" + e1 + "}}" + (b + t2);
    SubstitutePlain(d, "", m);
    assert d + "" == d;
    SubstituteTextToken(c + t3, c, e3, d, m);
    SubstituteTextToken(b + t2, b, e2, c + t3, m);
    SubstituteTextToken(a + t1, a, e1, b + t2, m);
  }

  /* The example lemmas take the template as a parameter, written as its
     pieces, so that the verifier reasons with the lemmas above instead of
     evaluating the scan character by character. */

  /** A field of the manifest that holds text is read by `pkg.<name>`. */
  lemma FieldOfPkgText(manifest: Json, name: string, expr: string, text: string)
    requires '.' !in name && expr == "pkg." + name
    requires Get(manifest, name) == Some(Scalar(text))
    ensures Field(manifest, expr) == text
  {
    FieldOfPkg(manifest, name);
  }

  /** The template of the CLI test, cut at its tokens. */
  lemma ExampleTemplatePieces(template: string)
    requires template == "target/" + "{{pkg.type}}" + "/" + "{{pkg.name}}" + "-v" + "{{pkg.version}}" + ".html"
    ensures template ==
      "target/" + ("{{" + "pkg.type" + "}}" + ("/" + ("{{" + "pkg.name" + "}}" + ("-v" + ("{{" + "pkg.version" + "}}" + ".html")))))
  {
    var t, n, v := "{{pkg.type}}", "{{pkg.name}}", "{{pkg.version}}";
    assert t == "{{" + "pkg.type" + "}}";
    assert n == "{{" + "pkg.name" + "}}";
    assert v == "{{" + "pkg.version" + "}}";
    Regroup("target/", t, "/", n, "-v", v, ".html");
  }

  /** Concatenation regrouped to the right. */
  lemma Regroup(a: string, b: string, c: string, d: string, e: string, f: string, g: string)
    ensures a + b + c + d + e + f + g == a + (b + (c + (d + (e + (f + g)))))
  {
  }

  /** The template of the CLI test, for any manifest: three fields in their
      places, the text between them unchanged. */
  lemma ExampleShape(template: string, m: Json)
    requires template == "target/" + "{{pkg.type}}" + "/" + "{{pkg.name}}" + "-v" + "{{pkg.version}}" + ".html"
    ensures Substitute(template, m) ==
      "target/" + (Field(m, "pkg.type") + ("/" + (Field(m, "pkg.name") + ("-v" + (Field(m, "pkg.version") + ".html")))))
  {
    ExampleTemplatePieces(template);
    SubstituteThree("target/", "pkg.type", "/", "pkg.name", "-v", "pkg.version", ".html", m);
  }

  /** The target of the CLI test, `target/{{pkg.type}}/{{pkg.name}}-v{{pkg.version}}.html`,
      resolves, with the repository's own manifest, to the module folder and
      a file name carrying the package name and version. */
  lemma ExampleTarget(template: string, manifest: Json, version: string)
    requires template == "target/" + "{{pkg.type}}" + "/" + "{{pkg.name}}" + "-v" + "{{pkg.version}}" + ".html"
    requires Get(manifest, "type") == Some(Scalar("module"))
    requires Get(manifest, "name") == Some(Scalar("copy-file-util"))
    requires Get(manifest, "version") == Some(Scalar(version))
    ensures Substitute(template, manifest) ==
      "target/" + ("module" + ("/" + ("copy-file-util" + ("-v" + (version + ".html")))))
  {
    ExampleShape(template, manifest);
    ExampleType(manifest);
    ExampleName(manifest);
    ExampleVersion(manifest, version);
  }

  /* Each field of the example is read in a lemma of its own: the three
     constant expressions in one proof cost the verifier too much. */

  /** The package type the test reads from the repository's manifest. */
  lemma ExampleType(manifest: Json)
    requires Get(manifest, "type") == Some(Scalar("module"))
    ensures Field(manifest, "pkg.type") == "module"
  {
    FieldOfPkgText(manifest, "type", "pkg.type", "module");
  }

  /** The package name the test reads from the repository's manifest. */
  lemma ExampleName(manifest: Json)
    requires Get(manifest, "name") == Some(Scalar("copy-file-util"))
    ensures Field(manifest, "pkg.name") == "copy-file-util"
  {
    FieldOfPkgText(manifest, "name", "pkg.name", "copy-file-util");
  }

  /** The version the test reads from the repository's manifest. */
  lemma ExampleVersion(manifest: Json, version: string)
    requires Get(manifest, "version") == Some(Scalar(version))
    ensures Field(manifest, "pkg.version") == version
  {
    FieldOfPkgText(manifest, "version", "pkg.version", version);
  }
}
