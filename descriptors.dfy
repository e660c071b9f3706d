/**
 * The parts of the protobuf descriptor graph (FileDescriptorProto,
 * DescriptorProto, EnumDescriptorProto, FieldDescriptorProto) that the
 * generator reads.  The graph is an arena: nodes are addressed by index,
 * a parent link is the index of the parent node, and a parent always has a
 * smaller index than its child, so every upward walk is finite.  Reference
 * identity of descriptor objects is index equality.
 */
module Descriptors {
  import opened Wrappers

  /** A C# `int`. */
  type Int32 = i: int | -0x8000_0000 <= i < 0x8000_0000

  /** `FieldDescriptorProto.Label`. */
  datatype Label = LabelOptional | LabelRequired | LabelRepeated

  /** `FieldDescriptorProto.Type`. */
  datatype FieldType =
    | TypeDouble | TypeFloat | TypeInt64 | TypeUint64 | TypeInt32 | TypeFixed64
    | TypeFixed32 | TypeBool | TypeString | TypeGroup | TypeMessage | TypeBytes
    | TypeUint32 | TypeEnum | TypeSfixed32 | TypeSfixed64 | TypeSint32 | TypeSint64

  /**
   * A field: `Number`, `label` (here `fieldLabel`), `type`, `TypeName` (the referenced type's
   * qualified name, as the parser wrote it) and `ResolvedType` (the node it
   * refers to, or null).
   */
  datatype Field = Field(
    name: string,
    number: Int32,
    fieldLabel: Label,
    fieldType: FieldType,
    typeName: string,
    resolvedType: Option<nat>)

  /**
   * A node of the graph.  A file's `Options.CsharpNamespace` is stored on the
   * file; a file has no parent in the type hierarchy.
   */
  datatype Node =
    | FileDescriptor(name: string, package: string, csharpNamespace: string)
    | MessageDescriptor(name: string, fullyQualifiedName: string, parent: Option<nat>, fields: seq<Field>)
    | EnumDescriptor(name: string, fullyQualifiedName: string, parent: Option<nat>)

  /** `IType.Parent`: null for a file. */
  function ParentOf(n: Node): Option<nat> {
    if n.FileDescriptor? then None else n.parent
  }

  /** A `FileDescriptorSet`: every node, `Files` in order, and `DefaultPackage`. */
  datatype FileSet = FileSet(nodes: seq<Node>, files: seq<nat>, defaultPackage: string)

  predicate WellFormed(fs: FileSet) {
    && (forall t :: 0 <= t < |fs.nodes| && ParentOf(fs.nodes[t]).Some? ==> ParentOf(fs.nodes[t]).value < t)
    && (forall k :: 0 <= k < |fs.files| ==> fs.files[k] < |fs.nodes| && fs.nodes[fs.files[k]].FileDescriptor?)
  }

  /** A possibly null reference into the set. */
  predicate InSet(fs: FileSet, t: Option<nat>) {
    t.None? || t.value < |fs.nodes|
  }

  /**
   * The ancestor chain of `t`, root first and `t` last: the first node has
   * no parent, and each other node's parent is the node before it
   * (`PathLinked`).
   */
  function Path(fs: FileSet, t: nat): (p: seq<nat>)
    requires WellFormed(fs) && t < |fs.nodes|
    ensures |p| > 0 && p[|p| - 1] == t
    ensures InRange(fs, p)
    ensures ParentOf(fs.nodes[p[0]]).None?
    decreases t
  {
    match ParentOf(fs.nodes[t])
    case None => [t]
    case Some(q) => Path(fs, q) + [t]
  }

  /** Every index of `p` addresses a node. */
  predicate InRange(fs: FileSet, p: seq<nat>) {
    forall k :: 0 <= k < |p| ==> p[k] < |fs.nodes|
  }

  /** `Path`, with the empty chain for null. */
  function PathFrom(fs: FileSet, t: Option<nat>): seq<nat>
    requires WellFormed(fs) && InSet(fs, t)
  {
    if t.None? then [] else Path(fs, t.value)
  }

  /** Each node of a chain after the first has the node before it as its parent. */
  lemma {:induction false} PathLinked(fs: FileSet, t: nat, k: nat)
    requires WellFormed(fs) && t < |fs.nodes|
    requires 0 < k < |Path(fs, t)|
    ensures ParentOf(fs.nodes[Path(fs, t)[k]]) == Some(Path(fs, t)[k - 1])
    decreases t
  {
    var parent := ParentOf(fs.nodes[t]);
    if parent.Some? {
      var q := parent.value;
      assert Path(fs, t) == Path(fs, q) + [t];
      if k < |Path(fs, q)| {
        PathLinked(fs, q, k);
      }
    }
  }

  /** A file can only be the root of a chain, since files have no parent. */
  lemma FileOnlyAtRoot(fs: FileSet, t: nat, k: nat)
    requires WellFormed(fs) && t < |fs.nodes|
    requires 0 < k < |Path(fs, t)|
    ensures !fs.nodes[Path(fs, t)[k]].FileDescriptor?
  {
    PathLinked(fs, t, k);
  }
}
