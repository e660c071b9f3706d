# RazorCodeGenerator semantic core, in Dafny

This project models the part of protogen's `RazorCodeGenerator` that turns
protobuf descriptors into the facts the Razor templates print, and it proves
properties of that model. The modelled parts are:

- the wire type and field key of a field (`GetWireTypeByType`, `MakeTag`);
- qualified names and type references (`GetFullQualifiedName`,
  `GetPackageNameAndNamespace`, `GetMessageTypeName`);
- the structural predicates (`IsMap`, `IsFieldMap`, `GetMapFieldType`, and
  the label predicates);
- the casing helpers of `ModelBase`;
- `FindFileProto` and `MakeTypeModel`;
- the re-indentation step of `GenerateCode`;
- the template decision and namespace backfill of `Generate`.

The descriptor graph is an arena, `Descriptors.FileSet`:

- Nodes are files, messages and enums, addressed by index.
- A parent link is the index of the parent. A parent always has a smaller
  index than its child, so every upward walk terminates.
- A file has no parent in the type hierarchy.
- "The same descriptor object" means the same index.

`FullyQualifiedName`, `TypeName`, `Name`, `Package`,
`Options.CsharpNamespace` and `DefaultPackage` are given strings, never
null. The descriptor getters are library code that answers `""` for an
unset string field, so the model uses `""` where a field is unset.

The source's loops are methods, each proved equal to a specification function:

- `GetFullQualifiedName` and `GetPackageNameAndNamespace`, the `while` loops
  over the parent chain;
- `FindFileProto`, the `do`-`while` loop;
- the re-indent loop, with its `StringBuilder`;
- `Generate`, a method of the class `Generator.DescriptorSet`, whose file
  nodes it updates in place.

The pure members and the lemmas are stated over those specification functions.

Modules:

- `Wrappers`: `Option` and `Result`.
- `Strings`: prefix, suffix, occurrence, `ReplaceAll`, ASCII casing, decimal
  printing.
- `Descriptors`: the descriptor graph.
- `WireTags`
- `NameResolver`
- `Classifier`
- `Reindent`
- `Generator`
- `ModelBase`

## Model

| member | source | states |
|---|---|---|
| WireTags.GetWireTypeByType | src/protogen/CodeGenerators/RazorCodeGenerator.cs:53-75 | message, bytes and string map to LEN (2); float, fixed32 and sfixed32 map to I32 (5); double, fixed64 and sfixed64 map to I64 (1). Every other type maps to Varint (0), groups included, and each case is stated as an if-and-only-if |
| WireTags.WireTypeCode | src/protogen/CodeGenerators/RazorCodeGenerator.cs:100 | the numeric wire type is below 8, so it fits the three low bits of the key |
| WireTags.FieldWireType | src/protogen/CodeGenerators/RazorCodeGenerator.cs:78-99 | a non-repeated field uses its element wire type. A repeated field uses LEN when `pack` is set and its element wire type otherwise |
| WireTags.ShiftedNumber | src/protogen/CodeGenerators/RazorCodeGenerator.cs:100 | defines the wrapping `fieldNumber << 3` on a 32-bit `int`, cast to `uint`: the field number times 8, modulo 2^32 |
| WireTags.BitOr | src/protogen/CodeGenerators/RazorCodeGenerator.cs:100 | defines the bitwise `|` of the key, bit by bit, on natural numbers |
| WireTags.TagValue | src/protogen/CodeGenerators/RazorCodeGenerator.cs:100 | the key is below 2^32 and equals `(number*8) mod 2^32 + wireType`. The `int` shift wraps and the `uint` cast reinterprets it |
| WireTags.ShiftedNumberLowBits | src/protogen/CodeGenerators/RazorCodeGenerator.cs:100 | after the wrapping shift, the key holds the low 29 bits of the field number, times 8 |
| WireTags.BitOrLowBits | src/protogen/CodeGenerators/RazorCodeGenerator.cs:100 | or-ing a wire type below 8 into a multiple of 8 is addition |
| WireTags.TagSplits | src/protogen/CodeGenerators/RazorCodeGenerator.cs:100 | for a field number in 0..2^29-1, the key is `n*8 + wireType`, `key >> 3` gives back `n`, and `key & 7` gives back the wire type |
| WireTags.MakeTag | src/protogen/CodeGenerators/RazorCodeGenerator.cs:76-101 | the result consists of decimal digits only, and its value is the key of the field |
| WireTags.PackIgnoredUnlessRepeated | src/protogen/CodeGenerators/RazorCodeGenerator.cs:80-99 | `pack` does not change the tag of a field that is not repeated |
| WireTags.PackIgnoredForLengthDelimited | src/protogen/CodeGenerators/RazorCodeGenerator.cs:83-86 | `pack` does not change the tag of a repeated length-delimited field |
| WireTags.TagExamples | src/protogen/CodeGenerators/RazorCodeGenerator.cs:76-101 | string field 1 gives "10". A packed repeated int32 field 2 gives "18", and "16" when unpacked |
| Strings.NatToDecimal | src/protogen/CodeGenerators/RazorCodeGenerator.cs:100 | `uint.ToString()` yields a non-empty digit string with no leading zero |
| Strings.DecimalRoundTrip | src/protogen/CodeGenerators/RazorCodeGenerator.cs:100 | reading the printed decimal back gives the number |
| Descriptors.Path | src/protogen/CodeGenerators/RazorCodeGenerator.cs:195-231 | the ancestor chain of a node runs root first and ends at the node. Every entry addresses a node, and the root has no parent |
| Descriptors.PathLinked | src/protogen/CodeGenerators/RazorCodeGenerator.cs:195-231 | each entry of the chain after the first has the previous entry as its parent |
| Descriptors.FileOnlyAtRoot | src/protogen/CodeGenerators/RazorCodeGenerator.cs:165-173 | a file can occur only at the root of a chain, so the walk meets at most one file |
| NameResolver.Segment | src/protogen/CodeGenerators/RazorCodeGenerator.cs:201-221 | defines what each node on the chain contributes: a message or enum its `Name`, a file its `Package` |
| NameResolver.Dotted | src/protogen/CodeGenerators/RazorCodeGenerator.cs:199-226 | defines the text the loop builds: parts taken root first, each part put in front with a dot only while what follows it is non-empty |
| NameResolver.QualifiedName | src/protogen/CodeGenerators/RazorCodeGenerator.cs:195-231 | every qualified name starts with `.` |
| NameResolver.GetFullQualifiedName | src/protogen/CodeGenerators/RazorCodeGenerator.cs:195-231 | the loop returns the chain's segments (file package, then type names, root to leaf), dot-joined, with a leading `.` added when missing |
| NameResolver.DottedIsJoin | src/protogen/CodeGenerators/RazorCodeGenerator.cs:203-220 | prepending with a dot only when the name so far is non-empty is the plain dot-join when no segment is empty |
| NameResolver.QualifiedNameInPackage | src/protogen/CodeGenerators/RazorCodeGenerator.cs:195-231 | a type below a file with package `p` is named `.p.A.B`, or `.A.B` when the package is empty |
| NameResolver.NoDoubledLeadingDot | src/protogen/CodeGenerators/RazorCodeGenerator.cs:215-229 | when no segment starts with a dot, the qualified name never starts with `..` |
| NameResolver.QualifiedNameExamples | src/protogen/CodeGenerators/RazorCodeGenerator.cs:195-231 | the examples `.p.A.B` and `.A.B` |
| NameResolver.TopType | src/protogen/CodeGenerators/RazorCodeGenerator.cs:163-173 | the `topType` found by the walk, when there is one, has a file as its parent |
| NameResolver.TopTypeIsBelowRoot | src/protogen/CodeGenerators/RazorCodeGenerator.cs:163-173 | the top type is the second node of the chain when the root is a file and the chain is longer than one node. Otherwise there is none |
| NameResolver.OwningFile | src/protogen/CodeGenerators/RazorCodeGenerator.cs:174-176 | the owning file, when there is one, is a file node |
| NameResolver.NamespaceFor | src/protogen/CodeGenerators/RazorCodeGenerator.cs:178-187 | defines the namespace: `""` for the file being generated; otherwise the delegate's answer on the file descriptor when a delegate is set, else the file's `csharp_namespace`, else the set's `DefaultPackage` when that is empty |
| NameResolver.PackageAndNamespace | src/protogen/CodeGenerators/RazorCodeGenerator.cs:159-193 | the package always starts with `.`. The namespace is `""` when the owning file is `FileInfo`, and the result is `(".", "")` when there is no owning file |
| NameResolver.GetPackageNameAndNamespace | src/protogen/CodeGenerators/RazorCodeGenerator.cs:159-193 | the loop and its branches compute exactly the owning file's package with a leading dot. The namespace is `""` for `FileInfo`; otherwise it is the delegate's answer, then `csharp_namespace`, then `DefaultPackage` |
| NameResolver.PackageAndNamespaceByPath | src/protogen/CodeGenerators/RazorCodeGenerator.cs:159-193 | the pair is read from the root of the type's chain when that root is a file above the type, and is `(".", "")` otherwise |
| NameResolver.CrossFileNamespaceNonEmpty | src/protogen/CodeGenerators/RazorCodeGenerator.cs:180-187 | without a delegate, a reference into another file gets a non-empty namespace whenever that file's `csharp_namespace` or `DefaultPackage` is non-empty |
| NameResolver.NestedSetResolution | src/protogen/CodeGenerators/RazorCodeGenerator.cs:159-193 | a doubly nested message resolves to its file's dotted package and that file's namespace |
| NameResolver.GetMessageTypeName | src/protogen/CodeGenerators/RazorCodeGenerator.cs:136-152 | the type name as the code writes it. In the root package `.` the leading dot is dropped from `TypeName`; otherwise every occurrence of the dotted package is replaced by the namespace with `string.Replace`; in both cases one more leading dot is then dropped, so `..X` in the root package becomes `X`. Its properties are the MessageTypeName lemmas below |
| NameResolver.MessageTypeNameInRootPackage | src/protogen/CodeGenerators/RazorCodeGenerator.cs:140-146 | in the root package `.`, `.rest` is written `rest` |
| NameResolver.MessageTypeNameSinglePackageOccurrence | src/protogen/CodeGenerators/RazorCodeGenerator.cs:136-152 | `P.rest` becomes `rest` in its own file and `N.rest` from a file with namespace `N`, when the package `P` does not occur again in `.rest` |
| NameResolver.MessageTypeNameSameFileExample | src/protogen/CodeGenerators/RazorCodeGenerator.cs:136-152 | `.p.A.B` is written `A.B` inside its own file |
| NameResolver.MessageTypeNameCrossFileExample | src/protogen/CodeGenerators/RazorCodeGenerator.cs:136-152 | `.p.A.B` is written `N.A.B` from another file whose target namespace is `N` |
| Strings.ReplaceAll | src/protogen/CodeGenerators/RazorCodeGenerator.cs:148 | ordinal `string.Replace`: every non-overlapping occurrence, left to right, is replaced. Replacing a pattern by itself gives the string back, and a replacement as long as the pattern keeps the length |
| NameResolver.ReplaceInRepeatedPackage | src/protogen/CodeGenerators/RazorCodeGenerator.cs:148 | `string.Replace` rewrites every occurrence of `.a` in `.a.b.ab`, the inner one included |
| NameResolver.ReplaceRewritesInnerOccurrenceSameFile | src/protogen/CodeGenerators/RazorCodeGenerator.cs:136-152 | as written, `.a.b.ab` in package `a` becomes `bb` in its own file, while the prefix rewrite gives `b.ab` |
| NameResolver.ReplaceRewritesInnerOccurrenceCrossFile | src/protogen/CodeGenerators/RazorCodeGenerator.cs:136-152 | as written, the same name becomes `N.bNb` from another file, while the prefix rewrite gives `N.b.ab` |
| NameResolver.GetMessageTypeNameByPrefix | src/protogen/CodeGenerators/RazorCodeGenerator.cs:136-152 | the corrected type name: only a leading occurrence of the dotted package is replaced by the namespace; otherwise as GetMessageTypeName |
| NameResolver.MessageTypeNameByPrefixReplacesPackage | src/protogen/CodeGenerators/RazorCodeGenerator.cs:136-152 | the corrected rewrite maps `P.rest` to `rest` or `N.rest` whatever `rest` contains |
| NameResolver.MessageTypeNameFormsAgree | src/protogen/CodeGenerators/RazorCodeGenerator.cs:136-152 | when the package occurs only as the prefix, the code as written and the corrected rewrite give the same name |
| Classifier.IsMap | src/protogen/CodeGenerators/RazorCodeGenerator.cs:103-108 | a message is a map entry when its qualified name starts with its parent's qualified name plus `.Map` and its name ends with `Entry`; characterised by IsMapByOwnName |
| Classifier.IsMapByOwnName | src/protogen/CodeGenerators/RazorCodeGenerator.cs:103-109 | for a message named consistently with its parent, `IsMap` holds exactly when its name has the form `Map…Entry` |
| Classifier.MapPrefixByName | src/protogen/CodeGenerators/RazorCodeGenerator.cs:105 | below a common qualifier `q`, `q.name` starts with `q.Map` exactly when `name` starts with `Map` |
| Classifier.IsFieldMap | src/protogen/CodeGenerators/RazorCodeGenerator.cs:111-117 | a field without a resolved type is never a map field |
| Classifier.FieldMapIffTypeIsMap | src/protogen/CodeGenerators/RazorCodeGenerator.cs:103-117 | a field whose `TypeName` is its resolved message's qualified name is a map field exactly when that message is a map entry |
| Classifier.MapDetectionExample | src/protogen/CodeGenerators/RazorCodeGenerator.cs:103-117 | `Parent.MapFieldEntry` and fields of that type are maps; `Parent.OtherEntry` and fields of that type are not |
| Classifier.GetMapFieldType | src/protogen/CodeGenerators/RazorCodeGenerator.cs:131-135 | the key is field 0 and the value is field 1 of the resolved message. There is an error, each stated as an if-and-only-if, for a missing resolved type (null reference), a resolved enum (invalid cast) and too few fields (index out of range) |
| Classifier.IsRepeated | src/protogen/CodeGenerators/RazorCodeGenerator.cs:119-122 | the field's label is `LabelRepeated` |
| Classifier.IsRequired | src/protogen/CodeGenerators/RazorCodeGenerator.cs:123-126 | the field's label is `LabelRequired` |
| Classifier.IsOptional | src/protogen/CodeGenerators/RazorCodeGenerator.cs:127-130 | the field's label is `LabelOptional` |
| Classifier.ExactlyOneLabel | src/protogen/CodeGenerators/RazorCodeGenerator.cs:119-130 | every field satisfies exactly one of `IsRepeated`, `IsRequired` and `IsOptional` |
| ModelBase.ToUpperCamel | src/protogen/CodeGenerators/RazorCodeGenerator.cs:23-28 | the length and every character after the first are kept. The first character is no longer a lower-case letter and changes only if it was one |
| ModelBase.ToSmallCamel | src/protogen/CodeGenerators/RazorCodeGenerator.cs:29-34 | the length and every character after the first are kept. The first character is no longer an upper-case letter and changes only if it was one |
| ModelBase.ToUpperCamelIdempotent | src/protogen/CodeGenerators/RazorCodeGenerator.cs:23-28 | upper-camelling twice is upper-camelling once |
| ModelBase.ToSmallCamelIdempotent | src/protogen/CodeGenerators/RazorCodeGenerator.cs:29-34 | lower-camelling twice is lower-camelling once |
| ModelBase.CamelAbsorbs | src/protogen/CodeGenerators/RazorCodeGenerator.cs:23-34 | applying one helper after the other is the same as applying the second alone |
| ModelBase.CamelRoundTrip | src/protogen/CodeGenerators/RazorCodeGenerator.cs:23-34 | a name starting with a lower-case letter comes back unchanged from `ToUpperCamel` followed by `ToSmallCamel` |
| ModelBase.CamelExamples | src/protogen/CodeGenerators/RazorCodeGenerator.cs:23-34 | `fooBar` ↔ `FooBar`; `_x` and `""` are kept |
| Generator.NearestFile | src/protogen/CodeGenerators/RazorCodeGenerator.cs:322-332 | the file found lies strictly above the type |
| Generator.FindFileProto | src/protogen/CodeGenerators/RazorCodeGenerator.cs:322-332 | the `do`-`while` loop returns the first file strictly above the message, or null when the chain holds none |
| Generator.NearestFileIsRoot | src/protogen/CodeGenerators/RazorCodeGenerator.cs:322-332 | that file is the root of the chain when the root is a file above the type, and there is none otherwise |
| Generator.NearestFileIsOwningFile | src/protogen/CodeGenerators/RazorCodeGenerator.cs:159-193 | `FindFileProto` and `GetPackageNameAndNamespace` find the same owning file |
| Generator.TypeModelFor | src/protogen/CodeGenerators/RazorCodeGenerator.cs:334-343 | the type model holds the message and the ident, sets no namespace delegate, and has the owning file as `FileInfo` |
| Generator.MakeTypeModel | src/protogen/CodeGenerators/RazorCodeGenerator.cs:334-343 | the method builds exactly that model, using `FindFileProto` |
| Generator.TypeModelNamespaces | src/protogen/CodeGenerators/RazorCodeGenerator.cs:159-193 | in such a model, a same-file reference gets no namespace. A cross-file reference gets that file's `csharp_namespace`, or `DefaultPackage` when that is empty |
| Generator.DescriptorSet.Generate | src/protogen/CodeGenerators/RazorCodeGenerator.cs:290-313 | with the file, type and enum templates, the nodes end fully backfilled; otherwise they are unchanged. The result is `GenerateResult` of the set as it was before the call |
| Generator.DescriptorSet.GenerateFiles | src/protogen/CodeGenerators/RazorCodeGenerator.cs:295-301 | the `foreach` over `Files` leaves every listed file backfilled and returns `Outputs` of the set as it was before the loop |
| Generator.DescriptorSet.GenerateFile | src/protogen/CodeGenerators/RazorCodeGenerator.cs:297-300 | one turn: file `k` is backfilled in place, and its code file extends the outputs for `k` files to those for `k + 1` |
| Generator.BackfillFile | src/protogen/CodeGenerators/RazorCodeGenerator.cs:297-298 | one file's empty `csharp_namespace` becomes `DefaultPackage`; anything else is kept |
| Generator.Backfilled | src/protogen/CodeGenerators/RazorCodeGenerator.cs:295-299 | the nodes after the first k files are backfilled: their number and everything but file namespaces are kept (node by node in BackfilledAt) |
| Generator.BackfillStep | src/protogen/CodeGenerators/RazorCodeGenerator.cs:297-299 | backfilling file `k` in place, when its namespace is empty, yields the nodes after `k + 1` files, and keeps the file's name |
| Generator.OutputStep | src/protogen/CodeGenerators/RazorCodeGenerator.cs:300-301 | file `k` rendered over the set backfilled up to and including it, and named after it, is the next code file |
| Generator.OutputsLast | src/protogen/CodeGenerators/RazorCodeGenerator.cs:295-301 | the code files for `k` files are those for `k - 1`, followed by the one for file `k - 1` |
| Generator.BackfilledAt | src/protogen/CodeGenerators/RazorCodeGenerator.cs:297-299 | after `k` files, a listed file with an empty namespace has `DefaultPackage`, and every other node is unchanged |
| Generator.BackfillResult | src/protogen/CodeGenerators/RazorCodeGenerator.cs:295-300 | after `Generate`, files with an empty namespace have `DefaultPackage`, files with a namespace keep it, and no other node changes |
| Generator.BackfillIdempotent | src/protogen/CodeGenerators/RazorCodeGenerator.cs:297-299 | backfilling again changes nothing |
| Generator.BackfilledWellFormed | src/protogen/CodeGenerators/RazorCodeGenerator.cs:297-299 | backfilling changes only namespaces and keeps the set well formed |
| Generator.QualifiedNameUnchangedByBackfill | src/protogen/CodeGenerators/RazorCodeGenerator.cs:195-231 | no qualified name changes during backfilling |
| Generator.ResolutionUnchangedByBackfill | src/protogen/CodeGenerators/RazorCodeGenerator.cs:159-193 | for a model without a namespace delegate, as MakeTypeModel builds, package and namespace resolution does not depend on how far backfilling has got |
| Generator.MessageTypeNameUnchangedByBackfill | src/protogen/CodeGenerators/RazorCodeGenerator.cs:136-152 | for a model without a namespace delegate, the name a field type is written with does not depend on how far backfilling has got, either as written or corrected |
| Generator.DelegateSeesBackfill | src/protogen/CodeGenerators/RazorCodeGenerator.cs:180-181 | with a delegate that reads the file's `csharp_namespace`, resolution does change with backfilling, so the two lemmas above need the model to have no delegate |
| Generator.Outputs | src/protogen/CodeGenerators/RazorCodeGenerator.cs:295-301 | after `k` files, `k` code files have been produced |
| Generator.OutputsAt | src/protogen/CodeGenerators/RazorCodeGenerator.cs:295-301 | code file `j` is named after descriptor file `j` and rendered from the file template over the set in which files `0..j` are backfilled |
| Generator.OutputFor | src/protogen/CodeGenerators/RazorCodeGenerator.cs:299-301 | code file j is named from file j with the output path and holds its rendering over the set in which files 0..j are backfilled |
| Generator.HasFileTemplates | src/protogen/CodeGenerators/RazorCodeGenerator.cs:292 | defines the three-template test: the file, type and enum templates are all non-empty |
| Generator.GenerateResult | src/protogen/CodeGenerators/RazorCodeGenerator.cs:290-313 | the code files when the file, type and enum templates are all present; otherwise an empty list with a global template, else the `ArgumentException`; its cases are OneOutputPerFile, GlobalTemplateOnly and NoTemplateIff |
| Generator.OneOutputPerFile | src/protogen/CodeGenerators/RazorCodeGenerator.cs:292-302 | with the file, type and enum templates, `Generate` succeeds with exactly one code file per descriptor file, in `Files` order |
| Generator.GlobalTemplateOnly | src/protogen/CodeGenerators/RazorCodeGenerator.cs:303-306 | with only a global template, the result is empty and nothing is raised |
| Generator.NoTemplateIff | src/protogen/CodeGenerators/RazorCodeGenerator.cs:292-311 | `Generate` raises exactly when one of the three file templates is missing and there is no global template |
| Reindent.TerminatorLength | src/protogen/CodeGenerators/RazorCodeGenerator.cs:378 | defines how much `ReadLine` consumes after a line: `\r\n` as one two-character terminator, a lone `\r` or `\n` as one, nothing at the end of the text |
| Reindent.LineLength | src/protogen/CodeGenerators/RazorCodeGenerator.cs:378 | `ReadLine` stops at the first `\r` or `\n`, and no line it returns contains one |
| Reindent.IndentPrefix | src/protogen/CodeGenerators/RazorCodeGenerator.cs:374-377 | the indent is exactly `4*ident` spaces |
| Reindent.AppendIndent | src/protogen/CodeGenerators/RazorCodeGenerator.cs:373-376 | the inner loop appends exactly `ident` four-space indents to the text built so far |
| Reindent.IndentLines | src/protogen/CodeGenerators/RazorCodeGenerator.cs:372-379 | defines the text the loop appends: each line behind the prefix and followed by a newline |
| Reindent.IndentedText | src/protogen/CodeGenerators/RazorCodeGenerator.cs:362-383 | defines the re-indented result for `ident > 0`: the lines read from the rendered text, each behind `4*ident` spaces and followed by a newline |
| Reindent.GenerateCode | src/protogen/CodeGenerators/RazorCodeGenerator.cs:362-383 | with `ident <= 0` the rendered text is returned unchanged. Otherwise each line read gets `4*ident` spaces before it and a newline after it, and reading stops at the end of the text or before a line starting with NUL |
| Reindent.IndentFirstLine | src/protogen/CodeGenerators/RazorCodeGenerator.cs:372-379 | one loop step: indent the first line, then the rest |
| Reindent.TrailingNewlineAddsNoLine | src/protogen/CodeGenerators/RazorCodeGenerator.cs:372-379 | a trailing newline adds no line, and a final unterminated line still gets one |
| Reindent.LineLengthOfExtension | src/protogen/CodeGenerators/RazorCodeGenerator.cs:378 | text after the first line break does not move the break |
| Reindent.ReindentExample | src/protogen/CodeGenerators/RazorCodeGenerator.cs:362-383 | `a\nb\n` and `a\nb` both re-indent at depth 2 to two lines behind eight spaces |
| Reindent.ReadBackLine | src/protogen/CodeGenerators/RazorCodeGenerator.cs:378 | a break-free line followed by a newline is read back as that line |
| Reindent.ReaderLines | src/protogen/CodeGenerators/RazorCodeGenerator.cs:370-379 | the lines `ReadLine` yields while `Peek() > 0`; each read consumes at least one character, so there are at most as many lines as characters |
| Reindent.ReaderLinesHaveNoBreaks | src/protogen/CodeGenerators/RazorCodeGenerator.cs:378 | no line read contains a line break |
| Reindent.ReadBackIndented | src/protogen/CodeGenerators/RazorCodeGenerator.cs:372-379 | reading re-indented text back gives the same lines with their indent |
| Reindent.IndentationComposes | src/protogen/CodeGenerators/RazorCodeGenerator.cs:362-383 | indenting output by `a` levels and then by `b` is indenting it by `a + b` levels, as when a nested type's code is embedded in its parent's code |

## Left out

- The Razor engine (`CompileRenderStringAsync` with `task.Wait()`) is a foreign asynchronous call. `Generate` takes the rendered text as the parameter `render(template, set, file)`. The re-indent step takes it as its input.
- `InitializeModel`: the `GenerateType` and `GenerateEnum` callbacks are foreign calls into rendering. `TypeModel` does not carry them.
- Template loading (lines 267-289) is file I/O. `Generate` takes the four templates as the `Templates` value, with a missing template as `""`.
- Output path naming (`Path.GetDirectoryName`, `Path.GetFileNameWithoutExtension`, `Path.Combine`, the `file_extension` option) is library code. It is the parameter `outputPath`.
- The descriptor classes are library code. They are replaced by the `Node` and `Field` datatypes, which carry only the fields read here. How `FullyQualifiedName` and `TypeName` are computed is not modelled; both are given strings.
- Cyclic parent chains are not modelled. `WellFormed` requires every parent index to be smaller than its child's, which excludes them; on a cyclic chain the source's `while (cur != null)` loops at lines 165 and 199 and the `do`-`while` loop at lines 325-330 would never end.
- A file has no type parent, as the library's `IType.Parent` for a file is null. The `throw new NotImplementedException()` branch of `GetFullQualifiedName` needs a node of another kind and cannot be reached in the model.
- `fdp.Options` is taken to be non-null, so the null-reference exceptions on a missing `Options` object are not modelled.
- Null strings are not modelled: the descriptor strings are taken to be `""` when unset, as the library's getters answer. A null `FullyQualifiedName` or `Name` (line 105), `TypeName` (lines 113, 142, 148) or `Package` (line 190) would raise a `NullReferenceException` in `StartsWith`, `EndsWith` or `Replace`; those exception paths are not modelled. A null namespace passed as the replacement to `string.Replace` removes the match, as `""` does, so that case needs no separate model.
- ModelBase.ToUpperCamel: culture-sensitive `ToUpper` beyond ASCII letters is not modelled. Non-ASCII characters are kept.
- ModelBase.ToSmallCamel: culture-sensitive `ToLower` beyond ASCII letters is not modelled. Non-ASCII characters are kept.
- `StartsWith` and `EndsWith` are compared ordinally. The source's culture-sensitive default comparison is not modelled.
- `GetWireTypeByType` maps group fields to Varint, as the code does. The protobuf group wire types (3 and 4) are not used.
- `MakeEnumModel`, `MakeSingleFileModel`, `GetFileDescriptorSet`, `GenerateSingleFileCode`, `GenerateTypeCode` and `GenerateEnumCode` only store references or forward to rendering. For a file, `Generate` calls `Reindent.GenerateCode` with ident 0 on the rendered text. Nested type rendering is covered by `GenerateCode` and `IndentationComposes`.
- The global template is loaded but never rendered by this file, so only whether it is empty is modelled.
- Oneof grouping and the filtering of empty or ignored files do not appear in this file.
- `Environment.NewLine` is fixed as `"\n"`.
- Generator.ResolutionUnchangedByBackfill: stated only for models without a `GetCodeNamespace` delegate. A delegate receives the live file descriptor and may read the namespace backfilling writes, as DelegateSeesBackfill shows.
- Generator.MessageTypeNameUnchangedByBackfill: stated only for models without a `GetCodeNamespace` delegate, for the same reason.
- Generator.OutputFor: gives `render` the whole set as it stands after files 0..j are backfilled. A template can reach any file through `GetFileDescriptorSet` and read its namespace, so the model does not claim that a file's output is independent of later files' backfilling.
- Reindent.GenerateCode: `StringReader.Peek() > 0` is modelled as "text remains and the next character is not NUL". Characters outside the Basic Multilingual Plane are single `char`s here, not surrogate pairs.

## Findings

| source | as written | input that shows it | evidently intended | confidence | as-written member | corrected member |
|---|---|---|---|---|---|---|
| src/protogen/CodeGenerators/RazorCodeGenerator.cs:148 | `TypeName.Replace(package, name)` replaces every occurrence of the dotted package, including occurrences inside type names | package `a`, type `.a.b.ab` (message `ab` nested in `b`): `bb` in its own file, `N.bNb` from a file where namespace is `N` | replace only the leading package: `b.ab` and `N.b.ab` | not executed | NameResolver.ReplaceRewritesInnerOccurrenceSameFile | NameResolver.MessageTypeNameByPrefixReplacesPackage |
