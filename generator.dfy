/**
 * The driver of `RazorCodeGenerator`: finding the file a type belongs to
 * (`FindFileProto`), building the model a type template is rendered with
 * (`MakeTypeModel`), and `Generate`, which decides from the templates
 * whether anything can be generated, fills in every empty
 * `csharp_namespace` with the set's `DefaultPackage` and renders one code
 * file per descriptor file.
 *
 * The Razor engine is a parameter: `render(template, set, file)` is the
 * text the file template produces for `file` when the descriptor set is
 * in the state `set`.  Output path naming is the parameter `outputPath`.
 */
module Generator {
  import opened Wrappers
  import opened Descriptors
  import opened NameResolver
  import opened Reindent

  // ------------------------------------------------------------- file lookup

  /** The first file strictly above `t` on its parent chain, if any. */
  function NearestFile(fs: FileSet, t: nat): (f: Option<nat>)
    requires WellFormed(fs) && t < |fs.nodes|
    ensures f.Some? ==> f.value < t && fs.nodes[f.value].FileDescriptor?
    decreases t
  {
    match ParentOf(fs.nodes[t])
    case None => None
    case Some(p) => if fs.nodes[p].FileDescriptor? then Some(p) else NearestFile(fs, p)
  }

  /**
   * `FindFileProto(proto)`: step to the parent, return it if it is a file,
   * and stop when the chain ends.
   */
  method FindFileProto(fs: FileSet, proto: nat) returns (file: Option<nat>)
    requires WellFormed(fs) && proto < |fs.nodes| && fs.nodes[proto].MessageDescriptor?
    ensures file == NearestFile(fs, proto)
  {
    var cur: Option<nat> := Some(proto);
    while cur.Some?
      invariant InSet(fs, cur)
      invariant cur.Some? ==> NearestFile(fs, cur.value) == NearestFile(fs, proto)
      invariant cur.None? ==> NearestFile(fs, proto).None?
      decreases if cur.Some? then cur.value + 1 else 0
    {
      cur := ParentOf(fs.nodes[cur.value]);
      if cur.Some? && fs.nodes[cur.value].FileDescriptor? {
        return cur;
      }
    }
    return None;
  }

  /**
   * The nearest file is the root of the chain when that root is a file and
   * lies strictly above `t`, and there is none otherwise.
   */
  lemma {:induction false} NearestFileIsRoot(fs: FileSet, t: nat)
    requires WellFormed(fs) && t < |fs.nodes|
    ensures var p := Path(fs, t);
            NearestFile(fs, t) == if |p| >= 2 && fs.nodes[p[0]].FileDescriptor? then Some(p[0]) else None
    decreases t
  {
    var parent := ParentOf(fs.nodes[t]);
    if parent.Some? {
      var q := parent.value;
      assert Path(fs, t) == Path(fs, q) + [t];
      if !fs.nodes[q].FileDescriptor? {
        NearestFileIsRoot(fs, q);
      } else {
        assert Path(fs, q) == [q];
      }
    }
  }

  /**
   * `FindFileProto` and `GetPackageNameAndNamespace` agree on the file that
   * owns a type.
   */
  lemma {:induction false} NearestFileIsOwningFile(fs: FileSet, t: nat)
    requires WellFormed(fs) && t < |fs.nodes|
    ensures NearestFile(fs, t) == OwningFile(fs, Some(t))
    decreases t
  {
    var parent := ParentOf(fs.nodes[t]);
    if parent.Some? && !fs.nodes[parent.value].FileDescriptor? {
      NearestFileIsOwningFile(fs, parent.value);
      assert TopType(fs, Some(t)) == TopType(fs, parent);
      assert NearestFile(fs, t) == NearestFile(fs, parent.value);
    } else if parent.Some? {
      assert TopType(fs, Some(t)) == Some(t);
    } else {
      assert TopType(fs, Some(t)) == TopType(fs, None);
    }
  }

  // ------------------------------------------------------------- type models

  /** The model `MakeTypeModel(proto, ident)` builds; it sets no namespace delegate. */
  function TypeModelFor(fs: FileSet, proto: nat, ident: int): (model: TypeModel)
    requires WellFormed(fs) && proto < |fs.nodes|
    ensures model.typeInfo == proto && model.currentIdent == ident
    ensures model.getCodeNamespace.None?
    ensures model.fileInfo == OwningFile(fs, Some(proto))
  {
    NearestFileIsOwningFile(fs, proto);
    TypeModel(proto, NearestFile(fs, proto), None, ident)
  }

  /** `MakeTypeModel(proto, ident)`. */
  method MakeTypeModel(fs: FileSet, proto: nat, ident: int) returns (model: TypeModel)
    requires WellFormed(fs) && proto < |fs.nodes| && fs.nodes[proto].MessageDescriptor?
    ensures model == TypeModelFor(fs, proto, ident)
  {
    var file := FindFileProto(fs, proto);
    model := TypeModel(proto, file, None, ident);
  }

  /**
   * Within a type model, a reference to a type of the same file gets no
   * namespace, and a reference into another file gets that file's
   * `csharp_namespace`, or the set's `DefaultPackage` when that is empty.
   */
  lemma TypeModelNamespaces(fs: FileSet, proto: nat, ident: int, t: nat)
    requires WellFormed(fs) && proto < |fs.nodes| && t < |fs.nodes|
    requires OwningFile(fs, Some(t)).Some?
    ensures var file := OwningFile(fs, Some(t)).value;
            var ns := PackageAndNamespace(fs, TypeModelFor(fs, proto, ident), Some(t)).1;
            && (OwningFile(fs, Some(proto)) == Some(file) ==> ns == "")
            && (OwningFile(fs, Some(proto)) != Some(file) ==>
                  ns == if fs.nodes[file].csharpNamespace != "" then fs.nodes[file].csharpNamespace else fs.defaultPackage)
  {
  }

  // ---------------------------------------------------------------- backfill

  /** A file's empty `csharp_namespace` replaced by `defaultPackage`; other nodes as they are. */
  function BackfillFile(n: Node, defaultPackage: string): Node {
    if n.FileDescriptor? && n.csharpNamespace == "" then n.(csharpNamespace := defaultPackage) else n
  }

  /** A node without its `csharp_namespace`: everything backfilling leaves alone. */
  function Shape(n: Node): Node {
    if n.FileDescriptor? then n.(csharpNamespace := "") else n
  }

  /** The nodes after the first `k` files of `files` have been backfilled. */
  function Backfilled(nodes: seq<Node>, files: seq<nat>, k: nat, defaultPackage: string): (r: seq<Node>)
    requires k <= |files| && forall j :: 0 <= j < |files| ==> files[j] < |nodes|
    ensures |r| == |nodes|
    ensures forall t :: 0 <= t < |r| ==> Shape(r[t]) == Shape(nodes[t])
  {
    if k == 0 then nodes
    else
      var before := Backfilled(nodes, files, k - 1, defaultPackage);
      before[files[k - 1] := BackfillFile(before[files[k - 1]], defaultPackage)]
  }

  lemma BackfillFileIdempotent(n: Node, defaultPackage: string)
    ensures BackfillFile(BackfillFile(n, defaultPackage), defaultPackage) == BackfillFile(n, defaultPackage)
  {
  }

  /**
   * Node by node: a file listed among the first `k` has its empty namespace
   * replaced by `defaultPackage`; every other node is unchanged.
   */
  lemma {:induction false} BackfilledAt(nodes: seq<Node>, files: seq<nat>, k: nat, defaultPackage: string, t: nat)
    requires k <= |files| && forall j :: 0 <= j < |files| ==> files[j] < |nodes|
    requires t < |nodes|
    ensures Backfilled(nodes, files, k, defaultPackage)[t] ==
              if t in files[..k] then BackfillFile(nodes[t], defaultPackage) else nodes[t]
  {
    if k > 0 {
      BackfilledAt(nodes, files, k - 1, defaultPackage, t);
      assert files[..k] == files[..k - 1] + [files[k - 1]];
      if t == files[k - 1] {
        BackfillFileIdempotent(nodes[t], defaultPackage);
      }
    }
  }

  /**
   * After `Generate` every listed file with an empty namespace has
   * `DefaultPackage`, every listed file with a namespace keeps it, and no
   * other node changes.
   */
  lemma BackfillResult(fs: FileSet, t: nat)
    requires WellFormed(fs) && t < |fs.nodes|
    ensures var n := Backfilled(fs.nodes, fs.files, |fs.files|, fs.defaultPackage)[t];
            && (t in fs.files && fs.nodes[t].csharpNamespace == "" ==> n == fs.nodes[t].(csharpNamespace := fs.defaultPackage))
            && (t in fs.files && fs.nodes[t].csharpNamespace != "" ==> n == fs.nodes[t])
            && (t !in fs.files ==> n == fs.nodes[t])
  {
    BackfilledAt(fs.nodes, fs.files, |fs.files|, fs.defaultPackage, t);
    assert fs.files[..|fs.files|] == fs.files;
  }

  /** Backfilling twice is backfilling once. */
  lemma BackfillIdempotent(fs: FileSet)
    requires WellFormed(fs)
    ensures var once := Backfilled(fs.nodes, fs.files, |fs.files|, fs.defaultPackage);
            Backfilled(once, fs.files, |fs.files|, fs.defaultPackage) == once
  {
    var once := Backfilled(fs.nodes, fs.files, |fs.files|, fs.defaultPackage);
    var twice := Backfilled(once, fs.files, |fs.files|, fs.defaultPackage);
    forall t | 0 <= t < |once|
      ensures twice[t] == once[t]
    {
      BackfilledAt(fs.nodes, fs.files, |fs.files|, fs.defaultPackage, t);
      BackfilledAt(once, fs.files, |fs.files|, fs.defaultPackage, t);
      BackfillFileIdempotent(fs.nodes[t], fs.defaultPackage);
    }
  }

  /** The set with its nodes replaced. */
  function WithNodes(fs: FileSet, nodes: seq<Node>): FileSet {
    FileSet(nodes, fs.files, fs.defaultPackage)
  }

  /** Sets that differ at most in the namespaces of their files. */
  predicate SameShape(a: FileSet, b: FileSet) {
    && |a.nodes| == |b.nodes| && a.files == b.files && a.defaultPackage == b.defaultPackage
    && forall t :: 0 <= t < |a.nodes| ==> Shape(a.nodes[t]) == Shape(b.nodes[t])
  }

  lemma ShapeKeeps(a: Node, b: Node)
    requires Shape(a) == Shape(b)
    ensures ParentOf(a) == ParentOf(b) && a.FileDescriptor? == b.FileDescriptor? && Segment(a) == Segment(b)
    ensures a.name == b.name && (a.FileDescriptor? ==> a.package == b.package)
  {
  }

  lemma SameShapeWellFormed(a: FileSet, b: FileSet)
    requires WellFormed(a) && SameShape(a, b)
    ensures WellFormed(b)
  {
    forall t | 0 <= t < |a.nodes|
      ensures ParentOf(a.nodes[t]) == ParentOf(b.nodes[t]) && a.nodes[t].FileDescriptor? == b.nodes[t].FileDescriptor?
    {
      ShapeKeeps(a.nodes[t], b.nodes[t]);
    }
  }

  /** Backfilling keeps the set well formed. */
  lemma BackfilledWellFormed(fs: FileSet, k: nat)
    requires WellFormed(fs) && k <= |fs.files|
    ensures var b := WithNodes(fs, Backfilled(fs.nodes, fs.files, k, fs.defaultPackage));
            SameShape(fs, b) && WellFormed(b)
  {
    SameShapeWellFormed(fs, WithNodes(fs, Backfilled(fs.nodes, fs.files, k, fs.defaultPackage)));
  }

  lemma {:induction false} SameShapePath(a: FileSet, b: FileSet, t: nat)
    requires WellFormed(a) && WellFormed(b) && SameShape(a, b) && t < |a.nodes|
    ensures Path(a, t) == Path(b, t)
    decreases t
  {
    ShapeKeeps(a.nodes[t], b.nodes[t]);
    if ParentOf(a.nodes[t]).Some? {
      SameShapePath(a, b, ParentOf(a.nodes[t]).value);
    }
  }

  lemma {:induction false} SameShapeTopType(a: FileSet, b: FileSet, cur: Option<nat>)
    requires WellFormed(a) && WellFormed(b) && SameShape(a, b) && InSet(a, cur)
    ensures TopType(a, cur) == TopType(b, cur)
    decreases if cur.Some? then cur.value + 1 else 0
  {
    if cur.Some? {
      ShapeKeeps(a.nodes[cur.value], b.nodes[cur.value]);
      var p := ParentOf(a.nodes[cur.value]);
      if p.Some? {
        ShapeKeeps(a.nodes[p.value], b.nodes[p.value]);
      }
      if !(p.Some? && a.nodes[p.value].FileDescriptor?) {
        SameShapeTopType(a, b, p);
      }
    }
  }

  lemma SameShapeSegments(a: FileSet, b: FileSet, p: seq<nat>)
    requires SameShape(a, b) && forall j :: 0 <= j < |p| ==> p[j] < |a.nodes|
    ensures Segments(a, p) == Segments(b, p)
  {
    forall j | 0 <= j < |p|
      ensures Segment(a.nodes[p[j]]) == Segment(b.nodes[p[j]])
    {
      ShapeKeeps(a.nodes[p[j]], b.nodes[p[j]]);
    }
  }

  /** Backfilling does not change any qualified name. */
  lemma QualifiedNameUnchangedByBackfill(fs: FileSet, k: nat, t: Option<nat>)
    requires WellFormed(fs) && k <= |fs.files| && InSet(fs, t)
    ensures var b := WithNodes(fs, Backfilled(fs.nodes, fs.files, k, fs.defaultPackage));
            WellFormed(b) && QualifiedName(b, t) == QualifiedName(fs, t)
  {
    var b := WithNodes(fs, Backfilled(fs.nodes, fs.files, k, fs.defaultPackage));
    BackfilledWellFormed(fs, k);
    if t.Some? {
      SameShapePath(fs, b, t.value);
      SameShapeSegments(fs, b, Path(fs, t.value));
    }
  }

  /**
   * Without a namespace delegate, as in every model `MakeTypeModel` builds,
   * backfilling does not change how any type reference resolves: a file
   * whose empty namespace became `DefaultPackage` was already resolved to
   * `DefaultPackage`.  So package and namespace resolution does not depend
   * on how far backfilling has got.
   */
  lemma ResolutionUnchangedByBackfill(fs: FileSet, k: nat, model: TypeModel, t: Option<nat>)
    requires WellFormed(fs) && k <= |fs.files| && InSet(fs, t)
    requires model.getCodeNamespace.None?
    ensures var b := WithNodes(fs, Backfilled(fs.nodes, fs.files, k, fs.defaultPackage));
            WellFormed(b) && PackageAndNamespace(b, model, t) == PackageAndNamespace(fs, model, t)
  {
    var b := WithNodes(fs, Backfilled(fs.nodes, fs.files, k, fs.defaultPackage));
    BackfilledWellFormed(fs, k);
    SameShapeTopType(fs, b, t);
    var top := TopType(fs, t);
    if top.Some? {
      var file := ParentOf(fs.nodes[top.value]).value;
      ShapeKeeps(fs.nodes[top.value], b.nodes[top.value]);
      ShapeKeeps(fs.nodes[file], b.nodes[file]);
      BackfilledAt(fs.nodes, fs.files, k, fs.defaultPackage, file);
      assert OwningFile(b, t) == OwningFile(fs, t) == Some(file);
      assert NamespaceFor(b, model, file) == NamespaceFor(fs, model, file);
    }
  }

  /** One file in package `p` with an empty namespace, holding message `A`; `DefaultPackage` is `D`. */
  function DelegateSet(): (fs: FileSet)
    ensures WellFormed(fs)
  {
    FileSet([FileDescriptor("f.proto", "p", ""), MessageDescriptor("A", ".p.A", Some(0), [])], [0], "D")
  }

  /**
   * With a delegate, resolution can depend on backfilling: a delegate that
   * answers with the file's `csharp_namespace` gives `""` before the file is
   * backfilled and `D` after.
   */
  lemma DelegateSeesBackfill()
    ensures var fs := DelegateSet();
            var model := TypeModel(1, None, Some((n: Node) => if n.FileDescriptor? then n.csharpNamespace else ""), 0);
            var b := WithNodes(fs, Backfilled(fs.nodes, fs.files, 1, fs.defaultPackage));
            && WellFormed(b)
            && PackageAndNamespace(fs, model, Some(1)).1 == ""
            && PackageAndNamespace(b, model, Some(1)).1 == "D"
  {
    var fs := DelegateSet();
    var b := WithNodes(fs, Backfilled(fs.nodes, fs.files, 1, fs.defaultPackage));
    BackfilledWellFormed(fs, 1);
    assert b.nodes[0] == FileDescriptor("f.proto", "p", "D");
    assert TopType(fs, Some(1)) == Some(1);
    assert TopType(b, Some(1)) == Some(1);
  }

  /** Hence the type name a field is written with is unchanged too, in either form. */
  lemma MessageTypeNameUnchangedByBackfill(fs: FileSet, k: nat, model: TypeModel, f: Field)
    requires WellFormed(fs) && k <= |fs.files| && InSet(fs, f.resolvedType)
    requires model.getCodeNamespace.None?
    ensures var b := WithNodes(fs, Backfilled(fs.nodes, fs.files, k, fs.defaultPackage));
            && WellFormed(b)
            && GetMessageTypeName(b, model, f) == GetMessageTypeName(fs, model, f)
            && GetMessageTypeNameByPrefix(b, model, f) == GetMessageTypeNameByPrefix(fs, model, f)
  {
    ResolutionUnchangedByBackfill(fs, k, model, f.resolvedType);
  }

  // -------------------------------------------------------------- generation

  /** The templates read from `template_path`; a missing template is empty. */
  datatype Templates = Templates(typeTemplate: string, enumTemplate: string, fileTemplate: string, globalTemplate: string)

  /** A generated file: its output path and its text. */
  datatype CodeFile = CodeFile(file: string, text: string)

  /** The `ArgumentException` raised when no template was given. */
  datatype GenerateError = NoTemplate

  predicate HasFileTemplates(templates: Templates) {
    templates.fileTemplate != "" && templates.typeTemplate != "" && templates.enumTemplate != ""
  }

  /**
   * The first `k` code files: file `j` is rendered once the first `j + 1`
   * files have been backfilled.
   */
  function Outputs(fs: FileSet, template: string, render: (string, FileSet, nat) -> string,
                   outputPath: string -> string, k: nat): (r: seq<CodeFile>)
    requires WellFormed(fs) && k <= |fs.files|
    ensures |r| == k
  {
    seq(k, j requires 0 <= j < k => OutputFor(fs, template, render, outputPath, j))
  }

  /** The code file for file `j`: rendered over the set in which files `0..j` are backfilled. */
  function OutputFor(fs: FileSet, template: string, render: (string, FileSet, nat) -> string,
                     outputPath: string -> string, j: nat): CodeFile
    requires WellFormed(fs) && j < |fs.files|
  {
    var file := fs.files[j];
    CodeFile(outputPath(fs.nodes[file].name), render(template, WithNodes(fs, Backfilled(fs.nodes, fs.files, j + 1, fs.defaultPackage)), file))
  }

  /** What `Generate` returns, or the error it raises, for the set as it was before the call. */
  function GenerateResult(fs: FileSet, templates: Templates, render: (string, FileSet, nat) -> string,
                          outputPath: string -> string): Result<seq<CodeFile>, GenerateError>
    requires WellFormed(fs)
  {
    if HasFileTemplates(templates) then Success(Outputs(fs, templates.fileTemplate, render, outputPath, |fs.files|))
    else if templates.globalTemplate != "" then Success([])
    else Failure(NoTemplate)
  }

  /**
   * With the file, type and enum templates, there is one code file per
   * descriptor file, in order, named after that file and rendered from the
   * file template over the set in which that file and all before it are
   * backfilled.
   */
  lemma OutputsAt(fs: FileSet, template: string, render: (string, FileSet, nat) -> string,
                  outputPath: string -> string, k: nat, j: nat)
    requires WellFormed(fs) && j < k <= |fs.files|
    ensures Outputs(fs, template, render, outputPath, k)[j] == OutputFor(fs, template, render, outputPath, j)
  {
  }

  /** The outputs for `k` files are those for `k - 1`, then the code file for file `k - 1`. */
  lemma OutputsLast(fs: FileSet, template: string, render: (string, FileSet, nat) -> string,
                    outputPath: string -> string, k: nat)
    requires WellFormed(fs) && 0 < k <= |fs.files|
    ensures Outputs(fs, template, render, outputPath, k) ==
              Outputs(fs, template, render, outputPath, k - 1) + [OutputFor(fs, template, render, outputPath, k - 1)]
  {
    var prev := Outputs(fs, template, render, outputPath, k - 1);
    var last := OutputFor(fs, template, render, outputPath, k - 1);
    forall j | 0 <= j < k
      ensures Outputs(fs, template, render, outputPath, k)[j] == (prev + [last])[j]
    {
      AppendedAt(prev, last, j);
    }
  }

  lemma AppendedAt(prev: seq<CodeFile>, last: CodeFile, j: nat)
    requires j <= |prev|
    ensures (prev + [last])[j] == if j < |prev| then prev[j] else last
  {
  }

  lemma OneOutputPerFile(fs: FileSet, templates: Templates, render: (string, FileSet, nat) -> string,
                         outputPath: string -> string)
    requires WellFormed(fs) && HasFileTemplates(templates)
    ensures var r := GenerateResult(fs, templates, render, outputPath);
            && r.Success? && |r.value| == |fs.files|
            && forall j :: 0 <= j < |fs.files| ==>
                 r.value[j] == CodeFile(outputPath(fs.nodes[fs.files[j]].name),
                                        render(templates.fileTemplate,
                                               WithNodes(fs, Backfilled(fs.nodes, fs.files, j + 1, fs.defaultPackage)),
                                               fs.files[j]))
  {
    forall j | 0 <= j < |fs.files|
      ensures Outputs(fs, templates.fileTemplate, render, outputPath, |fs.files|)[j] ==
                CodeFile(outputPath(fs.nodes[fs.files[j]].name),
                         render(templates.fileTemplate,
                                WithNodes(fs, Backfilled(fs.nodes, fs.files, j + 1, fs.defaultPackage)),
                                fs.files[j]))
    {
      OutputsAt(fs, templates.fileTemplate, render, outputPath, |fs.files|, j);
    }
  }

  /** With only a global template nothing is generated and nothing is raised. */
  lemma GlobalTemplateOnly(fs: FileSet, templates: Templates, render: (string, FileSet, nat) -> string,
                           outputPath: string -> string)
    requires WellFormed(fs) && !HasFileTemplates(templates) && templates.globalTemplate != ""
    ensures GenerateResult(fs, templates, render, outputPath) == Success([])
  {
  }

  /** `Generate` raises exactly when neither the three file templates nor a global template were given. */
  lemma NoTemplateIff(fs: FileSet, templates: Templates, render: (string, FileSet, nat) -> string,
                      outputPath: string -> string)
    requires WellFormed(fs)
    ensures GenerateResult(fs, templates, render, outputPath).Failure? <==>
              (templates.fileTemplate == "" || templates.typeTemplate == "" || templates.enumTemplate == "")
              && templates.globalTemplate == ""
  {
  }

  /** One turn of the loop of `Generate`: file `k` backfilled in place gives the nodes after `k + 1` files. */
  lemma BackfillStep(fs: FileSet, k: nat, before: seq<Node>, after: seq<Node>)
    requires WellFormed(fs) && k < |fs.files|
    requires before == Backfilled(fs.nodes, fs.files, k, fs.defaultPackage)
    requires var i := fs.files[k];
             after == if before[i].FileDescriptor? && before[i].csharpNamespace == ""
                      then before[i := before[i].(csharpNamespace := fs.defaultPackage)] else before
    ensures after == Backfilled(fs.nodes, fs.files, k + 1, fs.defaultPackage)
    ensures before[fs.files[k]].name == fs.nodes[fs.files[k]].name
  {
    var i := fs.files[k];
    assert after == before[i := BackfillFile(before[i], fs.defaultPackage)];
    ShapeKeeps(before[i], fs.nodes[i]);
  }

  /** File `k` rendered over the set backfilled up to and including it is the next output. */
  lemma OutputStep(fs: FileSet, template: string, render: (string, FileSet, nat) -> string,
                   outputPath: string -> string, k: nat, after: seq<Node>)
    requires WellFormed(fs) && k < |fs.files|
    requires after == Backfilled(fs.nodes, fs.files, k + 1, fs.defaultPackage)
    ensures var i := fs.files[k];
            Outputs(fs, template, render, outputPath, k) +
              [CodeFile(outputPath(fs.nodes[i].name), render(template, WithNodes(fs, after), i))]
              == Outputs(fs, template, render, outputPath, k + 1)
  {
    var i := fs.files[k];
    assert OutputFor(fs, template, render, outputPath, k) ==
             CodeFile(outputPath(fs.nodes[i].name), render(template, WithNodes(fs, after), i));
    OutputsLast(fs, template, render, outputPath, k + 1);
  }

  /** A `FileDescriptorSet` whose file descriptors `Generate` updates in place. */
  class DescriptorSet {
    var nodes: seq<Node>
    const files: seq<nat>
    const defaultPackage: string

    function View(): FileSet
      reads this
    {
      FileSet(nodes, files, defaultPackage)
    }

    ghost predicate Valid()
      reads this
    {
      WellFormed(View())
    }

    constructor(nodes: seq<Node>, files: seq<nat>, defaultPackage: string)
      requires WellFormed(FileSet(nodes, files, defaultPackage))
      ensures Valid() && View() == FileSet(nodes, files, defaultPackage)
    {
      this.nodes := nodes;
      this.files := files;
      this.defaultPackage := defaultPackage;
    }

    /**
     * `Generate(set)` with the templates already loaded: with the file,
     * type and enum templates it backfills each file's namespace and renders
     * it, in `Files` order; otherwise it changes nothing.
     */
    method Generate(templates: Templates, render: (string, FileSet, nat) -> string, outputPath: string -> string)
      returns (r: Result<seq<CodeFile>, GenerateError>)
      requires Valid()
      modifies this
      ensures Valid()
      ensures nodes == if HasFileTemplates(templates) then Backfilled(old(nodes), files, |files|, defaultPackage) else old(nodes)
      ensures r == GenerateResult(old(View()), templates, render, outputPath)
    {
      var codes: seq<CodeFile> := [];
      var hasTemplate := false;
      if templates.fileTemplate != "" && templates.typeTemplate != "" && templates.enumTemplate != "" {
        hasTemplate := true;
        codes := GenerateFiles(templates.fileTemplate, render, outputPath);
      }
      if templates.globalTemplate != "" {
        hasTemplate := true;
      }
      if !hasTemplate {
        return Failure(NoTemplate);
      }
      return Success(codes);
    }

    /**
     * The loop of `Generate` over `Files`: each file's empty namespace is
     * backfilled in place, then the file is rendered over the set as it now is.
     */
    method GenerateFiles(template: string, render: (string, FileSet, nat) -> string, outputPath: string -> string)
      returns (codes: seq<CodeFile>)
      requires Valid()
      modifies this
      ensures Valid()
      ensures nodes == Backfilled(old(nodes), files, |files|, defaultPackage)
      ensures codes == Outputs(old(View()), template, render, outputPath, |files|)
    {
      ghost var initial := View();
      codes := [];
      for k := 0 to |files|
        invariant nodes == Backfilled(initial.nodes, files, k, defaultPackage)
        invariant codes == Outputs(initial, template, render, outputPath, k)
      {
        var code := GenerateFile(initial, k, template, render, outputPath);
        codes := codes + [code];
      }
      BackfilledWellFormed(initial, |files|);
    }

    /** One turn of that loop: file `k` is backfilled in place, then rendered. */
    method GenerateFile(ghost initial: FileSet, k: nat, template: string, render: (string, FileSet, nat) -> string,
                        outputPath: string -> string) returns (code: CodeFile)
      requires WellFormed(initial) && files == initial.files && defaultPackage == initial.defaultPackage
      requires k < |files| && nodes == Backfilled(initial.nodes, files, k, defaultPackage)
      modifies this
      ensures nodes == Backfilled(initial.nodes, files, k + 1, defaultPackage)
      ensures Outputs(initial, template, render, outputPath, k) + [code] == Outputs(initial, template, render, outputPath, k + 1)
    {
      var i := files[k];
      var file := nodes[i];
      ghost var before := nodes;
      if file.FileDescriptor? && file.csharpNamespace == "" {
        nodes := nodes[i := file.(csharpNamespace := defaultPackage)];
      }
      BackfillStep(initial, k, before, nodes);
      OutputStep(initial, template, render, outputPath, k, nodes);
      var text := GenerateCode(render(template, View(), i), 0);
      code := CodeFile(outputPath(file.name), text);
    }
  }
}
