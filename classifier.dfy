/**
 * Structural predicates of `TypeModel`: map-entry detection (`IsMap`,
 * `IsFieldMap`), the key and value fields of a map entry
 * (`GetMapFieldType`), and the label predicates.
 */
module Classifier {
  import opened Wrappers
  import opened Strings
  import opened Descriptors
  import opened NameResolver

  /**
   * `IsMap(proto)`: the message's qualified name starts with its parent's
   * qualified name followed by `.Map`, and its name ends with `Entry`.
   */
  predicate IsMap(fs: FileSet, proto: nat)
    requires WellFormed(fs) && proto < |fs.nodes| && fs.nodes[proto].MessageDescriptor?
  {
    var m := fs.nodes[proto];
    StartsWith(m.fullyQualifiedName, QualifiedName(fs, m.parent) + ".Map") && EndsWith(m.name, "Entry")
  }

  /**
   * `IsFieldMap(proto)`: the field has a resolved type, and its `TypeName`
   * starts with the resolved type's parent's qualified name followed by
   * `.Map` and ends with `Entry`.
   */
  function IsFieldMap(fs: FileSet, f: Field): (r: bool)
    requires WellFormed(fs) && InSet(fs, f.resolvedType)
    ensures f.resolvedType.None? ==> !r
  {
    && f.resolvedType.Some?
    && StartsWith(f.typeName, QualifiedName(fs, ParentOf(fs.nodes[f.resolvedType.value])) + ".Map")
    && EndsWith(f.typeName, "Entry")
  }

  /** A message whose qualified name is its parent's plus its own name. */
  predicate ConsistentlyNamed(fs: FileSet, proto: nat)
    requires WellFormed(fs) && proto < |fs.nodes| && fs.nodes[proto].MessageDescriptor?
  {
    var m := fs.nodes[proto];
    m.fullyQualifiedName == QualifiedName(fs, m.parent) + "." + m.name
  }

  /**
   * For a consistently named message, `IsMap` depends on its own name only:
   * it is a map entry exactly when its name is `Map…Entry`.
   */
  lemma IsMapByOwnName(fs: FileSet, proto: nat)
    requires WellFormed(fs) && proto < |fs.nodes| && fs.nodes[proto].MessageDescriptor?
    requires ConsistentlyNamed(fs, proto)
    ensures IsMap(fs, proto) <==> StartsWith(fs.nodes[proto].name, "Map") && EndsWith(fs.nodes[proto].name, "Entry")
  {
    var m := fs.nodes[proto];
    MapPrefixByName(QualifiedName(fs, m.parent), m.name);
  }

  /** Below a common qualifier `q`, `q.name` starts with `q.Map` exactly when `name` starts with `Map`. */
  lemma MapPrefixByName(q: string, name: string)
    ensures StartsWith(q + "." + name, q + ".Map") <==> StartsWith(name, "Map")
  {
    assert q + "." + name == q + ("." + name);
    assert q + ".Map" == q + ("." + "Map");
    StartsWithAfterCommonPrefix(q, "." + name, "." + "Map");
    StartsWithAfterCommonPrefix(".", name, "Map");
  }

  /**
   * A field whose `TypeName` is its resolved message's qualified name is a
   * map field exactly when that message is a map entry.
   */
  lemma FieldMapIffTypeIsMap(fs: FileSet, f: Field)
    requires WellFormed(fs) && InSet(fs, f.resolvedType)
    requires f.resolvedType.Some? && fs.nodes[f.resolvedType.value].MessageDescriptor?
    requires ConsistentlyNamed(fs, f.resolvedType.value)
    requires f.typeName == fs.nodes[f.resolvedType.value].fullyQualifiedName
    ensures IsFieldMap(fs, f) <==> IsMap(fs, f.resolvedType.value)
  {
    var m := fs.nodes[f.resolvedType.value];
    var q := QualifiedName(fs, m.parent);
    IsMapByOwnName(fs, f.resolvedType.value);
    assert q + "." + m.name == q + ['.'] + m.name;
    EndsWithAfterSeparator(q, '.', m.name, "Entry");
  }

  /** File `p` with message `Parent` holding `MapFieldEntry` and `OtherEntry`. */
  function MapSet(): (fs: FileSet)
    ensures WellFormed(fs)
  {
    FileSet(
      [ FileDescriptor("p.proto", "p", ""),
        MessageDescriptor("Parent", ".p.Parent", Some(0), []),
        MessageDescriptor("MapFieldEntry", ".p.Parent.MapFieldEntry", Some(1), []),
        MessageDescriptor("OtherEntry", ".p.Parent.OtherEntry", Some(1), []) ],
      [0], "")
  }

  /**
   * `Parent.MapFieldEntry` is a map entry and a field referring to it is a
   * map field; `Parent.OtherEntry`, without the `Map` marker, is neither.
   */
  lemma MapDetectionExample()
    ensures IsMap(MapSet(), 2) && !IsMap(MapSet(), 3)
    ensures IsFieldMap(MapSet(), Field("m", 1, LabelRepeated, TypeMessage, ".p.Parent.MapFieldEntry", Some(2)))
    ensures !IsFieldMap(MapSet(), Field("o", 2, LabelRepeated, TypeMessage, ".p.Parent.OtherEntry", Some(3)))
  {
    var fs := MapSet();
    MapSetNames();
    assert StartsWith("MapFieldEntry", "Map") && EndsWith("MapFieldEntry", "Entry");
    MapStringFacts();
    assert !StartsWith("OtherEntry", "Map");
    IsMapByOwnName(fs, 2);
    IsMapByOwnName(fs, 3);
    FieldMapIffTypeIsMap(fs, Field("m", 1, LabelRepeated, TypeMessage, ".p.Parent.MapFieldEntry", Some(2)));
    FieldMapIffTypeIsMap(fs, Field("o", 2, LabelRepeated, TypeMessage, ".p.Parent.OtherEntry", Some(3)));
  }

  /** `Parent` is named `.p.Parent`, and both entries are named below it. */
  lemma MapSetNames()
    ensures QualifiedName(MapSet(), Some(1)) == ".p.Parent"
    ensures ConsistentlyNamed(MapSet(), 2) && ConsistentlyNamed(MapSet(), 3)
  {
    var fs := MapSet();
    assert Path(fs, 0) == [0];
    assert Path(fs, 1) == Path(fs, 0) + [1];
    assert Segments(fs, Path(fs, 1)) == ["p", "Parent"];
    MapStringFacts();
    assert Dotted(["Parent"]) == "Parent";
    assert Dotted(["p", "Parent"]) == "p.Parent";
    assert !StartsWith("p.Parent", ".");
    assert QualifiedName(fs, Some(1)) == ".p.Parent";
    EntryNameStringFacts();
  }

  /**
   * The string facts the `MapSet` example relies on, stated apart from it
   * so that its proof does not unfold string functions on literals.
   */
  lemma MapStringFacts()
    ensures ["p", "Parent"][1..] == ["Parent"] && ["Parent"][1..] == []
    ensures "p" + "." + "Parent" == "p.Parent" && "p.Parent"[..1] == "p" && "." + "p.Parent" == ".p.Parent"
    ensures "OtherEntry"[..3][0] == 'O' && "MapFieldEntry"[..3] == "Map"
    ensures "MapFieldEntry"[|"MapFieldEntry"| - 5..] == "Entry"
  {
  }

  /** The entries' qualified names, spelled out; a proof aid for `MapSetNames`. */
  lemma EntryNameStringFacts()
    ensures ".p.Parent" + "." + "MapFieldEntry" == ".p.Parent.MapFieldEntry"
    ensures ".p.Parent" + "." + "OtherEntry" == ".p.Parent.OtherEntry"
  {
    assert ".p.Parent" + "." == ".p.Parent.";
  }


  /** What `GetMapFieldType` throws instead of returning a field. */
  datatype MapFieldError =
    | NullReference        // no resolved type
    | InvalidCast          // the resolved type is not a message
    | ArgumentOutOfRange   // the entry has too few fields

  /**
   * `GetMapFieldType(proto, isKey)`: the resolved message's field 0 for the
   * key and field 1 for the value.
   */
  function GetMapFieldType(fs: FileSet, f: Field, isKey: bool): (r: Result<Field, MapFieldError>)
    requires WellFormed(fs) && InSet(fs, f.resolvedType)
    ensures r.Failure? && r.error == NullReference <==> f.resolvedType.None?
    ensures r.Failure? && r.error == InvalidCast <==>
              f.resolvedType.Some? && !fs.nodes[f.resolvedType.value].MessageDescriptor?
    ensures r.Success? <==> f.resolvedType.Some? && fs.nodes[f.resolvedType.value].MessageDescriptor?
                            && |fs.nodes[f.resolvedType.value].fields| > (if isKey then 0 else 1)
    ensures r.Success? ==> r.value == fs.nodes[f.resolvedType.value].fields[if isKey then 0 else 1]
  {
    if f.resolvedType.None? then Failure(NullReference)
    else
      var t := fs.nodes[f.resolvedType.value];
      if !t.MessageDescriptor? then Failure(InvalidCast)
      else
        var index := if isKey then 0 else 1;
        if index < |t.fields| then Success(t.fields[index]) else Failure(ArgumentOutOfRange)
  }

  /** `IsRepeated(proto)`. */
  predicate IsRepeated(f: Field) {
    f.fieldLabel == LabelRepeated
  }

  /** `IsRequired(proto)`. */
  predicate IsRequired(f: Field) {
    f.fieldLabel == LabelRequired
  }

  /** `IsOptional(proto)`. */
  predicate IsOptional(f: Field) {
    f.fieldLabel == LabelOptional
  }

  /** Every field satisfies exactly one of the label predicates. */
  lemma ExactlyOneLabel(f: Field)
    ensures IsRepeated(f) || IsRequired(f) || IsOptional(f)
    ensures !(IsRepeated(f) && IsRequired(f)) && !(IsRepeated(f) && IsOptional(f)) && !(IsRequired(f) && IsOptional(f))
  {
  }
}
