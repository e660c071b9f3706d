/**
 * Name resolution of `TypeModel`: the qualified name of a node
 * (`GetFullQualifiedName`), the package and target namespace of the file
 * that owns a type (`GetPackageNameAndNamespace`), and the name a field's
 * type is written with in generated code (`GetMessageTypeName`).
 */
module NameResolver {
  import opened Wrappers
  import opened Strings
  import opened Descriptors

  /**
   * The part of a `TypeModel` name resolution reads: the file being
   * generated (`FileInfo`, possibly null) and the optional
   * `GetCodeNamespace` delegate, which is handed the owning file's
   * descriptor as it currently stands.
   */
  datatype TypeModel = TypeModel(
    typeInfo: nat,
    fileInfo: Option<nat>,
    getCodeNamespace: Option<Node -> string>,
    currentIdent: int)

  // ------------------------------------------------------------ qualified names

  /** What a node contributes to a qualified name: a file its package, a type its name. */
  function Segment(n: Node): string {
    match n
    case FileDescriptor(_, package, _) => package
    case MessageDescriptor(name, _, _, _) => name
    case EnumDescriptor(name, _, _) => name
  }

  function Segments(fs: FileSet, p: seq<nat>): (r: seq<string>)
    requires InRange(fs, p)
    ensures |r| == |p| && forall k :: 0 <= k < |p| ==> r[k] == Segment(fs.nodes[p[k]])
  {
    seq(|p|, k requires 0 <= k < |p| => Segment(fs.nodes[p[k]]))
  }

  /**
   * Parts joined root first with dots, where a part is added without a dot
   * while everything after it is empty.
   */
  function Dotted(parts: seq<string>): string {
    if parts == [] then ""
    else
      var rest := Dotted(parts[1..]);
      if rest == "" then parts[0] else parts[0] + "." + rest
  }

  /** With no empty part, `Dotted` is the plain dot-join. */
  lemma {:induction false} DottedIsJoin(parts: seq<string>)
    requires forall k :: 0 <= k < |parts| ==> parts[k] != ""
    ensures Dotted(parts) == Join(parts, ".")
    ensures parts != [] ==> Dotted(parts) != "" && Dotted(parts)[0] == parts[0][0]
  {
    if |parts| > 1 {
      DottedIsJoin(parts[1..]);
    }
  }

  /**
   * The qualified name of a node: the package of its file and the names of
   * its ancestors, root to leaf, joined by dots, with one leading dot.
   */
  function QualifiedName(fs: FileSet, t: Option<nat>): (r: string)
    requires WellFormed(fs) && InSet(fs, t)
    ensures |r| > 0 && r[0] == '.'
  {
    WithLeadingDot(Dotted(Segments(fs, PathFrom(fs, t))))
  }

  /** `GetFullQualifiedName(proto)`: walks from `proto` to the root, prepending names. */
  method GetFullQualifiedName(fs: FileSet, proto: Option<nat>) returns (name: string)
    requires WellFormed(fs) && InSet(fs, proto)
    ensures name == QualifiedName(fs, proto)
  {
    name := "";
    var cur := proto;
    ghost var done: seq<nat> := [];
    while cur.Some?
      invariant InSet(fs, cur)
      invariant InRange(fs, done)
      invariant PathFrom(fs, proto) == PathFrom(fs, cur) + done
      invariant name == Dotted(Segments(fs, done))
      decreases if cur.Some? then cur.value + 1 else 0
    {
      var node := fs.nodes[cur.value];
      // a message or enum contributes its name, a file its package
      var segment := match node
        case MessageDescriptor(n, _, _, _) => n
        case EnumDescriptor(n, _, _) => n
        case FileDescriptor(_, package, _) => package;
      if name != "" {
        name := segment + "." + name;
      } else {
        name := segment;
      }
      PrependStep(fs, cur.value, done);
      PathStep(fs, PathFrom(fs, proto), cur.value, done);
      InRangeCons(fs, cur.value, done);
      done := [cur.value] + done;
      cur := ParentOf(node);
    }
    assert done == PathFrom(fs, proto);
    if !StartsWith(name, ".") {
      name := "." + name;
    }
  }

  lemma InRangeCons(fs: FileSet, c: nat, p: seq<nat>)
    requires c < |fs.nodes| && InRange(fs, p)
    ensures InRange(fs, [c] + p)
  {
  }

  /** Prepending one node to the walked part of the chain prepends its segment. */
  lemma PrependStep(fs: FileSet, c: nat, done: seq<nat>)
    requires c < |fs.nodes| && InRange(fs, done)
    ensures var rest := Dotted(Segments(fs, done));
            Dotted(Segments(fs, [c] + done)) ==
              if rest == "" then Segment(fs.nodes[c]) else Segment(fs.nodes[c]) + "." + rest
  {
    assert Segments(fs, [c] + done) == [Segment(fs.nodes[c])] + Segments(fs, done);
    assert ([Segment(fs.nodes[c])] + Segments(fs, done))[1..] == Segments(fs, done);
  }

  /** One step up the chain: the node joins the walked part. */
  lemma PathStep(fs: FileSet, whole: seq<nat>, c: nat, done: seq<nat>)
    requires WellFormed(fs) && c < |fs.nodes|
    requires whole == PathFrom(fs, Some(c)) + done
    ensures ParentOf(fs.nodes[c]).Some? ==> ParentOf(fs.nodes[c]).value < c
    ensures whole == PathFrom(fs, ParentOf(fs.nodes[c])) + ([c] + done)
  {
    match ParentOf(fs.nodes[c]) {
      case None =>
        assert PathFrom(fs, Some(c)) == [c];
        assert [] + ([c] + done) == [c] + done;
      case Some(q) =>
        assert PathFrom(fs, Some(c)) == Path(fs, q) + [c];
        AppendAssoc(Path(fs, q), [c], done);
    }
  }

  lemma AppendAssoc(a: seq<nat>, b: seq<nat>, c: seq<nat>)
    ensures (a + b) + c == a + (b + c)
  {
  }

  /** A first part followed by non-empty parts is dotted as that part, a dot, and the rest joined. */
  lemma DottedUnderPackage(segs: seq<string>)
    requires |segs| >= 2 && forall k :: 1 <= k < |segs| ==> segs[k] != ""
    ensures Dotted(segs) == segs[0] + "." + Join(segs[1..], ".")
    ensures Join(segs[1..], ".") != [] && Join(segs[1..], ".")[0] == segs[1][0]
  {
    var names := segs[1..];
    forall k | 0 <= k < |names| ensures names[k] != "" {
      assert names[k] == segs[k + 1];
    }
    DottedIsJoin(names);
  }

  /** `p.rest` given a leading dot: `.rest` when `p` is empty, `.p.rest` otherwise. */
  lemma LeadingDotUnderPackage(p: string, rest: string)
    requires !StartsWith(p, ".")
    ensures WithLeadingDot(p + "." + rest) == if p == "" then "." + rest else "." + p + "." + rest
  {
    if p == "" {
      assert p + "." + rest == "." + rest;
      assert ("." + rest)[..1] == ".";
    } else {
      assert (p + "." + rest)[..1] == p[..1];
    }
  }

  /** No doubled dot appears when neither the package nor the rest starts with one. */
  lemma NoDoubledDotUnderPackage(p: string, rest: string)
    requires !StartsWith(p, ".") && rest != [] && rest[0] != '.'
    ensures !StartsWith(WithLeadingDot(p + "." + rest), "..")
  {
    LeadingDotUnderPackage(p, rest);
    var q := WithLeadingDot(p + "." + rest);
    if p == "" {
      assert q[1] == rest[0];
    } else {
      assert p[..1] != "." && p[..1] == [p[0]];
      assert q[1] == p[0];
    }
    assert q[..2][1] == q[1];
  }

  /**
   * A type nested in a file with package `p` (no leading dot) and whose
   * ancestors have non-empty names is named `.p.A.B`, or `.A.B` when the
   * package is empty.  The first segment of the chain is the package.
   */
  lemma QualifiedNameInPackage(fs: FileSet, t: nat)
    requires WellFormed(fs) && t < |fs.nodes|
    requires |Path(fs, t)| >= 2 && fs.nodes[Path(fs, t)[0]].FileDescriptor?
    requires var segs := Segments(fs, Path(fs, t));
             (forall k :: 1 <= k < |segs| ==> segs[k] != "") && !StartsWith(segs[0], ".")
    ensures var segs := Segments(fs, Path(fs, t));
            && segs[0] == fs.nodes[Path(fs, t)[0]].package
            && QualifiedName(fs, Some(t)) ==
                 if segs[0] == "" then "." + Join(segs[1..], ".") else "." + segs[0] + "." + Join(segs[1..], ".")
  {
    var segs := Segments(fs, Path(fs, t));
    DottedUnderPackage(segs);
    LeadingDotUnderPackage(segs[0], Join(segs[1..], "."));
  }

  /** When no name starts with a dot, the qualified name never starts with `..`. */
  lemma NoDoubledLeadingDot(fs: FileSet, t: nat)
    requires WellFormed(fs) && t < |fs.nodes|
    requires |Path(fs, t)| >= 2 && fs.nodes[Path(fs, t)[0]].FileDescriptor?
    requires var segs := Segments(fs, Path(fs, t));
             (forall k :: 1 <= k < |segs| ==> segs[k] != "") && (forall k :: 0 <= k < |segs| ==> !StartsWith(segs[k], "."))
    ensures !StartsWith(QualifiedName(fs, Some(t)), "..")
  {
    var segs := Segments(fs, Path(fs, t));
    DottedUnderPackage(segs);
    assert !StartsWith(segs[1], ".") && segs[1][..1] == [segs[1][0]];
    NoDoubledDotUnderPackage(segs[0], Join(segs[1..], "."));
  }

  // ------------------------------------------------ package and namespace

  /**
   * The first node on the way up from `cur` whose parent is a file (the
   * `topType` of `GetPackageNameAndNamespace`).
   */
  function TopType(fs: FileSet, cur: Option<nat>): (top: Option<nat>)
    requires WellFormed(fs) && InSet(fs, cur)
    ensures top.Some? ==> top.value < |fs.nodes| && ParentOf(fs.nodes[top.value]).Some?
                          && fs.nodes[ParentOf(fs.nodes[top.value]).value].FileDescriptor?
    decreases if cur.Some? then cur.value + 1 else 0
  {
    if cur.None? then None
    else
      var p := ParentOf(fs.nodes[cur.value]);
      if p.Some? && fs.nodes[p.value].FileDescriptor? then cur else TopType(fs, p)
  }

  /** The top type is the second node of the chain, below a file root. */
  lemma {:induction false} TopTypeIsBelowRoot(fs: FileSet, t: nat)
    requires WellFormed(fs) && t < |fs.nodes|
    ensures var p := Path(fs, t);
            TopType(fs, Some(t)) == if |p| >= 2 && fs.nodes[p[0]].FileDescriptor? then Some(p[1]) else None
    decreases t
  {
    var parent := ParentOf(fs.nodes[t]);
    if parent.Some? {
      var q := parent.value;
      if !fs.nodes[q].FileDescriptor? {
        TopTypeIsBelowRoot(fs, q);
        assert Path(fs, t) == Path(fs, q) + [t];
      } else {
        assert Path(fs, q) == [q];
      }
    }
  }

  /** The file that owns a type: the parent of its top type. */
  function OwningFile(fs: FileSet, t: Option<nat>): (f: Option<nat>)
    requires WellFormed(fs) && InSet(fs, t)
    ensures f.Some? ==> f.value < |fs.nodes| && fs.nodes[f.value].FileDescriptor?
  {
    match TopType(fs, t)
    case None => None
    case Some(top) => ParentOf(fs.nodes[top])
  }

  /**
   * The namespace a cross-file reference into `file` uses: the delegate's
   * answer if a delegate is set, else the file's `csharp_namespace`, else
   * the set's `DefaultPackage`; references into the file being generated
   * use none.
   */
  function NamespaceFor(fs: FileSet, model: TypeModel, file: nat): string
    requires file < |fs.nodes| && fs.nodes[file].FileDescriptor?
  {
    if model.fileInfo == Some(file) then ""
    else if model.getCodeNamespace.Some? then model.getCodeNamespace.value(fs.nodes[file])
    else if fs.nodes[file].csharpNamespace != "" then fs.nodes[file].csharpNamespace
    else fs.defaultPackage
  }

  /** The pair `GetPackageNameAndNamespace(proto)` returns. */
  function PackageAndNamespace(fs: FileSet, model: TypeModel, proto: Option<nat>): (r: (string, string))
    requires WellFormed(fs) && InSet(fs, proto)
    ensures StartsWith(r.0, ".")
    ensures OwningFile(fs, proto) == model.fileInfo ==> r.1 == ""
    ensures OwningFile(fs, proto).None? ==> r == (".", "")
  {
    match OwningFile(fs, proto)
    case None => (".", "")
    case Some(file) => (WithLeadingDot(fs.nodes[file].package), NamespaceFor(fs, model, file))
  }

  /** `GetPackageNameAndNamespace(proto)`: walks up to the top type, then reads its file. */
  method GetPackageNameAndNamespace(fs: FileSet, model: TypeModel, proto: Option<nat>)
    returns (package: string, name: string)
    requires WellFormed(fs) && InSet(fs, proto)
    ensures (package, name) == PackageAndNamespace(fs, model, proto)
  {
    package := "";
    name := "";
    var cur := proto;
    var topType: Option<nat> := None;
    while cur.Some?
      invariant InSet(fs, cur)
      invariant topType.None?
      invariant TopType(fs, cur) == TopType(fs, proto)
      decreases if cur.Some? then cur.value + 1 else 0
    {
      var parent := ParentOf(fs.nodes[cur.value]);
      if parent.Some? && fs.nodes[parent.value].FileDescriptor? {
        topType := cur;
        assert topType == TopType(fs, proto);
        break;
      }
      assert TopType(fs, cur) == TopType(fs, parent);
      cur := parent;
    }
    assert topType == TopType(fs, proto);
    if topType.Some? {
      var fdp := ParentOf(fs.nodes[topType.value]).value;
      package := fs.nodes[fdp].package;
      if model.fileInfo != Some(fdp) {
        if model.getCodeNamespace.Some? {
          name := model.getCodeNamespace.value(fs.nodes[fdp]);
        } else {
          name := fs.nodes[fdp].csharpNamespace;
          if name == "" {
            name := fs.defaultPackage;
          }
        }
      }
    }
    if !StartsWith(package, ".") {
      package := "." + package;
    }
    if topType.Some? {
      var fdp := ParentOf(fs.nodes[topType.value]).value;
      assert OwningFile(fs, proto) == Some(fdp);
      assert package == WithLeadingDot(fs.nodes[fdp].package);
      assert name == NamespaceFor(fs, model, fdp);
      assert PackageAndNamespace(fs, model, proto) == (WithLeadingDot(fs.nodes[fdp].package), NamespaceFor(fs, model, fdp));
    } else {
      assert OwningFile(fs, proto).None?;
      assert package == ".";
      assert name == "";
    }
  }

  /**
   * The package and namespace come from the root of the type's chain when
   * that root is a file and the type lies below it, and are `(".", "")`
   * otherwise.
   */
  lemma PackageAndNamespaceByPath(fs: FileSet, model: TypeModel, t: nat)
    requires WellFormed(fs) && t < |fs.nodes|
    ensures var p := Path(fs, t);
            PackageAndNamespace(fs, model, Some(t)) ==
              if |p| >= 2 && fs.nodes[p[0]].FileDescriptor? then
                (WithLeadingDot(fs.nodes[p[0]].package), NamespaceFor(fs, model, p[0]))
              else (".", "")
  {
    TopTypeIsBelowRoot(fs, t);
  }

  /**
   * A cross-file reference without a delegate gets a non-empty namespace
   * whenever the owning file's `csharp_namespace` or the set's
   * `DefaultPackage` is non-empty.
   */
  lemma CrossFileNamespaceNonEmpty(fs: FileSet, model: TypeModel, t: Option<nat>)
    requires WellFormed(fs) && InSet(fs, t)
    requires OwningFile(fs, t).Some? && OwningFile(fs, t) != model.fileInfo
    requires model.getCodeNamespace.None?
    requires fs.nodes[OwningFile(fs, t).value].csharpNamespace != "" || fs.defaultPackage != ""
    ensures PackageAndNamespace(fs, model, t).1 != ""
  {
  }

  // ------------------------------------------------------- message type names

  /** `GetMessageTypeName(proto)`, with `string.Replace` replacing every occurrence of the package. */
  function GetMessageTypeName(fs: FileSet, model: TypeModel, f: Field): string
    requires WellFormed(fs) && InSet(fs, f.resolvedType)
  {
    var (package, name) := PackageAndNamespace(fs, model, f.resolvedType);
    var res := if package == "." then DropLeadingDot(f.typeName) else ReplaceAll(f.typeName, package, name);
    DropLeadingDot(res)
  }

  /** In the root package the type name only loses its leading dot. */
  lemma MessageTypeNameInRootPackage(fs: FileSet, model: TypeModel, f: Field, rest: string)
    requires WellFormed(fs) && InSet(fs, f.resolvedType)
    requires PackageAndNamespace(fs, model, f.resolvedType).0 == "."
    requires f.typeName == "." + rest && !StartsWith(rest, ".")
    ensures GetMessageTypeName(fs, model, f) == rest
  {
  }

  /**
   * A type name `P.rest` (P the owning package with its dot) becomes `rest`
   * in its own file and `N.rest` in another file with namespace `N`,
   * provided `P` does not occur again in `.rest`.
   */
  lemma MessageTypeNameSinglePackageOccurrence(fs: FileSet, model: TypeModel, f: Field, rest: string)
    requires WellFormed(fs) && InSet(fs, f.resolvedType)
    requires var pn := PackageAndNamespace(fs, model, f.resolvedType);
             pn.0 != "." && f.typeName == pn.0 + "." + rest && !Contains("." + rest, pn.0)
    requires var ns := PackageAndNamespace(fs, model, f.resolvedType).1; ns == "" || !StartsWith(ns, ".")
    ensures var ns := PackageAndNamespace(fs, model, f.resolvedType).1;
            GetMessageTypeName(fs, model, f) == if ns == "" then rest else ns + "." + rest
  {
    var (package, ns) := PackageAndNamespace(fs, model, f.resolvedType);
    assert f.typeName == package + ("." + rest);
    ReplaceAllAtFront(package, "." + rest, ns);
    ReplaceAllWithoutOccurrence("." + rest, package, ns);
    assert ReplaceAll(f.typeName, package, ns) == ns + "." + rest;
    if ns != "" {
      assert !StartsWith(ns + "." + rest, ".") by {
        assert (ns + "." + rest)[..1] == ns[..1];
      }
    }
  }

  /**
   * The evident intent of `GetMessageTypeName`: replace the owning package
   * only where it prefixes the type name.
   */
  function GetMessageTypeNameByPrefix(fs: FileSet, model: TypeModel, f: Field): string
    requires WellFormed(fs) && InSet(fs, f.resolvedType)
  {
    var (package, name) := PackageAndNamespace(fs, model, f.resolvedType);
    var res :=
      if package == "." then DropLeadingDot(f.typeName)
      else if StartsWith(f.typeName, package) then name + f.typeName[|package|..]
      else f.typeName;
    DropLeadingDot(res)
  }

  /** The prefix form maps `P.rest` to `rest` or `N.rest` whatever `rest` contains. */
  lemma MessageTypeNameByPrefixReplacesPackage(fs: FileSet, model: TypeModel, f: Field, rest: string)
    requires WellFormed(fs) && InSet(fs, f.resolvedType)
    requires var pn := PackageAndNamespace(fs, model, f.resolvedType);
             pn.0 != "." && f.typeName == pn.0 + "." + rest
    requires var ns := PackageAndNamespace(fs, model, f.resolvedType).1; ns == "" || !StartsWith(ns, ".")
    ensures var ns := PackageAndNamespace(fs, model, f.resolvedType).1;
            GetMessageTypeNameByPrefix(fs, model, f) == if ns == "" then rest else ns + "." + rest
  {
    var (package, ns) := PackageAndNamespace(fs, model, f.resolvedType);
    assert f.typeName[..|package|] == package;
    assert f.typeName[|package|..] == "." + rest;
    if ns != "" {
      assert !StartsWith(ns + "." + rest, ".") by {
        assert (ns + "." + rest)[..1] == ns[..1];
      }
    }
  }

  /** Where the package occurs only as the prefix, both forms agree. */
  lemma MessageTypeNameFormsAgree(fs: FileSet, model: TypeModel, f: Field, rest: string)
    requires WellFormed(fs) && InSet(fs, f.resolvedType)
    requires var pn := PackageAndNamespace(fs, model, f.resolvedType);
             pn.0 != "." && f.typeName == pn.0 + "." + rest && !Contains("." + rest, pn.0)
    ensures GetMessageTypeName(fs, model, f) == GetMessageTypeNameByPrefix(fs, model, f)
  {
    var (package, ns) := PackageAndNamespace(fs, model, f.resolvedType);
    assert f.typeName == package + ("." + rest);
    ReplaceAllAtFront(package, "." + rest, ns);
    ReplaceAllWithoutOccurrence("." + rest, package, ns);
    assert f.typeName[..|package|] == package;
    assert f.typeName[|package|..] == "." + rest;
  }

  // ------------------------------------------------------------- examples

  /** File `p` holding message `A` holding message `B`, and a second file `q`. */
  function NestedSet(package: string, csharpNamespace: string): (fs: FileSet)
    ensures WellFormed(fs)
  {
    FileSet(
      [ FileDescriptor("a.proto", package, csharpNamespace),
        MessageDescriptor("A", "", Some(0), []),
        MessageDescriptor("B", "", Some(1), []),
        FileDescriptor("b.proto", "q", "") ],
      [0, 3], "")
  }

  lemma NestedSetPaths(package: string, csharpNamespace: string)
    ensures var fs := NestedSet(package, csharpNamespace);
            Path(fs, 0) == [0] && Path(fs, 1) == [0, 1] && Path(fs, 2) == [0, 1, 2]
  {
    var fs := NestedSet(package, csharpNamespace);
    assert Path(fs, 0) == [0];
    assert Path(fs, 1) == Path(fs, 0) + [1];
    assert Path(fs, 2) == Path(fs, 1) + [2];
  }

  lemma QualifiedNameExamples()
    ensures QualifiedName(NestedSet("p", ""), Some(2)) == ".p.A.B"
    ensures QualifiedName(NestedSet("", ""), Some(2)) == ".A.B"
  {
    NestedSetPaths("p", "");
    NestedSetPaths("", "");
    var fs, fs' := NestedSet("p", ""), NestedSet("", "");
    assert Segments(fs, Path(fs, 2))[1..] == ["A", "B"];
    assert Segments(fs', Path(fs', 2))[1..] == ["A", "B"];
    NestedSetStringFacts();
    assert !StartsWith("p", ".");
    assert Join(["A", "B"], ".") == "A.B" by {
      assert ["A", "B"][1..] == ["B"];
    }
    QualifiedNameInPackage(fs, 2);
    QualifiedNameInPackage(fs', 2);
  }

  /** `.p` never occurs in `.A.B`. */
  lemma PackageAbsentFromRest()
    ensures !Contains(".A.B", ".p")
  {
    forall i: nat | i <= 4 ensures !OccursAt(".A.B", ".p", i) {
      if i <= 2 { assert ".A.B"[i..i + 2][1] == ".A.B"[i + 1] != 'p'; }
    }
  }

  /** `B` is owned by file 0, read with a leading dot. */
  lemma NestedSetResolution(package: string, csharpNamespace: string, model: TypeModel)
    requires !StartsWith(package, ".")
    ensures var fs := NestedSet(package, csharpNamespace);
            PackageAndNamespace(fs, model, Some(2)) == ("." + package, NamespaceFor(fs, model, 0))
  {
    NestedSetPaths(package, csharpNamespace);
    PackageAndNamespaceByPath(NestedSet(package, csharpNamespace), model, 2);
  }

  /** `.p.A.B` is written `A.B` inside its own file. */
  lemma MessageTypeNameSameFileExample()
    ensures GetMessageTypeName(NestedSet("p", ""), TypeModel(1, Some(0), None, 0),
                               Field("b", 1, LabelOptional, TypeMessage, ".p.A.B", Some(2))) == "A.B"
  {
    var model := TypeModel(1, Some(0), None, 0);
    NestedSetStringFacts();
    assert !StartsWith("p", ".");
    NestedSetResolution("p", "", model);
    assert NamespaceFor(NestedSet("p", ""), model, 0) == "";
    PackageAbsentFromRest();
    MessageTypeNameSinglePackageOccurrence(NestedSet("p", ""), model,
      Field("b", 1, LabelOptional, TypeMessage, ".p.A.B", Some(2)), "A.B");
  }

  /** `.p.A.B` is written `N.A.B` from another file when `csharp_namespace` is `N`. */
  lemma MessageTypeNameCrossFileExample()
    ensures GetMessageTypeName(NestedSet("p", "N"), TypeModel(1, Some(3), None, 0),
                               Field("b", 1, LabelOptional, TypeMessage, ".p.A.B", Some(2))) == "N.A.B"
  {
    var model := TypeModel(1, Some(3), None, 0);
    NestedSetStringFacts();
    assert !StartsWith("p", ".");
    NestedSetResolution("p", "N", model);
    assert NamespaceFor(NestedSet("p", "N"), model, 0) == "N";
    assert !StartsWith("N", ".");
    PackageAbsentFromRest();
    MessageTypeNameSinglePackageOccurrence(NestedSet("p", "N"), model,
      Field("b", 1, LabelOptional, TypeMessage, ".p.A.B", Some(2)), "A.B");
  }

  /** Package `a`, message `b`, and message `ab` nested in `b`; file 3 generates. */
  function RepeatedPackageSet(): (fs: FileSet)
    ensures WellFormed(fs)
  {
    FileSet(
      [ FileDescriptor("a.proto", "a", "N"),
        MessageDescriptor("b", ".a.b", Some(0), []),
        MessageDescriptor("ab", ".a.b.ab", Some(1), []),
        FileDescriptor("c.proto", "c", "") ],
      [0, 3], "")
  }

  /** Every `.a` in `.a.b.ab` is replaced, the inner one included. */
  lemma ReplaceInRepeatedPackage(ns: string)
    ensures ReplaceAll(".a.b.ab", ".a", ns) == ns + ".b" + ns + "b"
  {
    RepeatedPackageStringFacts();
    ReplaceAllAtFront(".a", ".b.ab", ns);
    ReplaceAllSkip('.', "b.ab", ".a", ns);
    ReplaceAllSkip('b', ".ab", ".a", ns);
    ReplaceAllAtFront(".a", "b", ns);
    ReplaceAllSkip('b', "", ".a", ns);
    assert ReplaceAll("", ".a", ns) == "";
    RegroupRewrittenName(ns);
  }

  /** Regrouping the concatenation `ReplaceInRepeatedPackage` builds character by character. */
  lemma RegroupRewrittenName(ns: string)
    ensures ns + (['.'] + (['b'] + (ns + (['b'] + "")))) == ns + ".b" + ns + "b"
  {
    assert ['.'] + ['b'] == ".b";
  }

  lemma RepeatedPackageResolution(model: TypeModel)
    ensures var fs := RepeatedPackageSet();
            PackageAndNamespace(fs, model, Some(2)) == (".a", NamespaceFor(fs, model, 0))
  {
    var fs := RepeatedPackageSet();
    assert Path(fs, 0) == [0];
    assert Path(fs, 1) == Path(fs, 0) + [1];
    assert Path(fs, 2) == Path(fs, 1) + [2];
    PackageAndNamespaceByPath(fs, model, 2);
    RepeatedPackageStringFacts();
    assert !StartsWith("a", ".");
    assert WithLeadingDot(fs.nodes[0].package) == "." + "a";
  }

  /**
   * `.a.b.ab` contains `.a` twice, so `string.Replace` rewrites the inner
   * occurrence too: `bb` in its own file, where the prefix rewrite gives `b.ab`.
   */
  lemma ReplaceRewritesInnerOccurrenceSameFile()
    ensures var f := Field("x", 1, LabelOptional, TypeMessage, ".a.b.ab", Some(2));
            && GetMessageTypeName(RepeatedPackageSet(), TypeModel(1, Some(0), None, 0), f) == "bb"
            && GetMessageTypeNameByPrefix(RepeatedPackageSet(), TypeModel(1, Some(0), None, 0), f) == "b.ab"
  {
    var model := TypeModel(1, Some(0), None, 0);
    assert NamespaceFor(RepeatedPackageSet(), model, 0) == "";
    RepeatedPackageTypeNames(model, "");
    RepeatedPackageStringFacts();
    assert DropLeadingDot(".bb") == "bb";
  }

  /** From another file the same name becomes `N.bNb`; the prefix rewrite gives `N.b.ab`. */
  lemma ReplaceRewritesInnerOccurrenceCrossFile()
    ensures var f := Field("x", 1, LabelOptional, TypeMessage, ".a.b.ab", Some(2));
            && GetMessageTypeName(RepeatedPackageSet(), TypeModel(1, Some(3), None, 0), f) == "N.bNb"
            && GetMessageTypeNameByPrefix(RepeatedPackageSet(), TypeModel(1, Some(3), None, 0), f) == "N.b.ab"
  {
    var model := TypeModel(1, Some(3), None, 0);
    assert NamespaceFor(RepeatedPackageSet(), model, 0) == "N";
    RepeatedPackageStringFacts();
    assert !StartsWith("N", ".");
    RepeatedPackageTypeNames(model, "N");
    assert !StartsWith("N.bNb", ".");
  }

  /**
   * `.a.b.ab` seen from a model that gives file `a.proto` the namespace `ns`:
   * `string.Replace` turns both occurrences of `.a` into `ns`, the prefix
   * rewrite only the first.
   */
  lemma RepeatedPackageTypeNames(model: TypeModel, ns: string)
    requires NamespaceFor(RepeatedPackageSet(), model, 0) == ns && (ns == "" || !StartsWith(ns, "."))
    ensures var f := Field("x", 1, LabelOptional, TypeMessage, ".a.b.ab", Some(2));
            && GetMessageTypeName(RepeatedPackageSet(), model, f) == DropLeadingDot(ns + ".b" + ns + "b")
            && GetMessageTypeNameByPrefix(RepeatedPackageSet(), model, f) == if ns == "" then "b.ab" else ns + "." + "b.ab"
  {
    RepeatedPackageResolution(model);
    ReplaceInRepeatedPackage(ns);
    RepeatedPackageStringFacts();
    MessageTypeNameByPrefixReplacesPackage(RepeatedPackageSet(), model,
      Field("x", 1, LabelOptional, TypeMessage, ".a.b.ab", Some(2)), "b.ab");
  }

  /**
   * The string facts the `NestedSet` examples rely on, stated apart from
   * them so that their proofs do not unfold string functions on literals.
   */
  lemma NestedSetStringFacts()
    ensures "." + "p" == ".p" && "." + "A.B" == ".A.B" && ".p" + "." + "A.B" == ".p.A.B"
    ensures "p"[..1] == "p" && "N"[..1] == "N"
  {
  }

  /**
   * The string facts the `RepeatedPackageSet` examples rely on, stated
   * apart from them for the same reason.
   */
  lemma RepeatedPackageStringFacts()
    ensures ".a" + ".b.ab" == ".a.b.ab" && ".a" + "b" == ".ab"
    ensures ['.'] + "b.ab" == ".b.ab" && ['b'] + ".ab" == "b.ab" && ['b'] + "" == "b"
    ensures ".b.ab"[..2] == ".b" && "b.ab"[..2] == "b." && |"b"| < 2
    ensures "a"[..1] == "a" && "." + "a" == ".a" && ".a" + "." + "b.ab" == ".a.b.ab"
    ensures "" + ".b" + "" + "b" == ".bb" && ".bb"[..1] == "." && ".bb"[1..] == "bb"
    ensures "N" + ".b" + "N" + "b" == "N.bNb" && "N" + "." + "b.ab" == "N.b.ab" && "N.bNb"[..1] == "N" && "N"[..1] == "N"
  {
  }
}
