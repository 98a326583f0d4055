/** Turning a struct declaration into a TypeInfo record (processStruct in
    rex/pkg/parse.go) and the records themselves (rex/pkg/json.go). Identifiers, type
    names and import paths are strings; doc comments are bytes, as the doc-comment
    parser reads them. */
module Structs {
  import opened Wrappers
  import opened Seqs
  import opened Bytes
  import opened TypeExpr
  import GoDoc

  /** FieldInfo. The Go code never fills in `package`: it stays "". */
  datatype FieldInfo = FieldInfo(
    fieldName: string,
    typeName: string,
    package: string,
    decorators: seq<string>,
    docString: Bytes,
    parsedDoc: seq<GoDoc.Elem>)

  /** EnumInfo: one exported constant or variable of an enum type. */
  datatype EnumInfo = EnumInfo(name: string, docString: Bytes, parsedDoc: seq<GoDoc.Elem>)

  /** TypeInfo. */
  datatype TypeInfo = TypeInfo(
    package: string,
    typeName: string,
    fields: seq<FieldInfo>,
    enumValues: seq<EnumInfo>,
    isRoot: bool,
    docString: Bytes,
    parsedDoc: seq<GoDoc.Elem>)

  /** An import of a source file: the optional local name and the path literal as
      written, quotes included. */
  datatype ImportSpec = ImportSpec(name: Option<string>, path: string)

  /** A source file: the position range it covers and its imports. */
  datatype SourceFile = SourceFile(start: int, end: int, imports: seq<ImportSpec>)

  /** One line of a struct body: its names (none for an embedded field), its type and
      the text of its doc comment, if it has one. */
  datatype Field = Field(names: seq<string>, typ: Expr, doc: Option<Bytes>)

  /** ast.IsExported, for names whose first letter is ASCII. */
  predicate IsExported(name: string)
  {
    |name| > 0 && 'A' <= name[0] <= 'Z'
  }

  /** Number of double quotes at the start of `s`. */
  function LeadingQuotes(s: string): (i: nat)
    ensures i <= |s|
    ensures forall k :: 0 <= k < i ==> s[k] == '"'
    ensures i < |s| ==> s[i] != '"'
  {
    if |s| == 0 || s[0] != '"' then 0 else 1 + LeadingQuotes(s[1..])
  }

  /** Where the run of double quotes that ends `s` begins, looking no further left
      than `lo`. */
  function TrailingQuotes(s: string, lo: nat): (j: nat)
    requires lo <= |s|
    ensures lo <= j <= |s|
    ensures forall k :: j <= k < |s| ==> s[k] == '"'
    ensures j > lo ==> s[j - 1] != '"'
    decreases |s|
  {
    if |s| == lo || s[|s| - 1] != '"' then |s|
    else
      var j := TrailingQuotes(s[..|s| - 1], lo);
      assert forall k :: j <= k < |s| - 1 ==> s[k] == s[..|s| - 1][k];
      j
  }

  /** strings.Trim(path, `"`): every leading and trailing double quote removed. */
  function TrimQuotes(s: string): (r: string)
    ensures |r| > 0 ==> r[0] != '"' && r[|r| - 1] != '"'
    ensures exists i {:trigger s[i..]} :: 0 <= i <= |s| - |r| && s[i..][..|r|] == r
                        && (forall k :: 0 <= k < i ==> s[k] == '"')
                        && (forall k :: i + |r| <= k < |s| ==> s[k] == '"')
  {
    var i := LeadingQuotes(s);
    var j := TrailingQuotes(s, i);
    assert s[i..][..j - i] == s[i..j];
    s[i..j]
  }

  /** The key an import is known by: its explicit name, or else the last segment of its
      path. */
  function ImportKey(spec: ImportSpec): string
  {
    match spec.name
    case Some(n) => n
    case None => LastPart(TrimQuotes(spec.path), '/')
  }

  /** The import map of a file; a later import with the same key replaces an earlier one. */
  function ImportMap(imports: seq<ImportSpec>): map<string, string>
  {
    if |imports| == 0 then map[]
    else
      var n := |imports| - 1;
      ImportMap(imports[..n])[ImportKey(imports[n]) := TrimQuotes(imports[n].path)]
  }

  /** Every import contributes its key, and nothing else does. */
  lemma {:induction false} ImportMapKeys(imports: seq<ImportSpec>)
    ensures ImportMap(imports).Keys == set i | 0 <= i < |imports| :: ImportKey(imports[i])
  {
    if |imports| > 0 {
      var n := |imports| - 1;
      assert ImportMap(imports).Keys == ImportMap(imports[..n]).Keys + {ImportKey(imports[n])};
      ImportMapKeys(imports[..n]);
      KeySetStep(imports, n);
    }
  }

  /** The keys of a list are the keys of all but its last import, plus the last one's. */
  lemma KeySetStep(imports: seq<ImportSpec>, n: nat)
    requires n + 1 == |imports|
    ensures (set i | 0 <= i < |imports| :: ImportKey(imports[i]))
         == (set i | 0 <= i < n :: ImportKey(imports[..n][i])) + {ImportKey(imports[n])}
  {
    assert forall i :: 0 <= i < n ==> imports[..n][i] == imports[i];
  }

  /** The key of an import that no later import shares maps to that import's path. */
  lemma {:induction false} ImportMapLast(imports: seq<ImportSpec>, i: nat)
    requires i < |imports|
    requires forall j :: i < j < |imports| ==> ImportKey(imports[j]) != ImportKey(imports[i])
    ensures ImportKey(imports[i]) in ImportMap(imports)
    ensures ImportMap(imports)[ImportKey(imports[i])] == TrimQuotes(imports[i].path)
  {
    var n := |imports| - 1;
    var key, m := ImportKey(imports[i]), ImportMap(imports[..n]);
    assert ImportMap(imports) == m[ImportKey(imports[n]) := TrimQuotes(imports[n].path)];
    if i < n {
      PrefixKeysUnique(imports, n, i);
      ImportMapLast(imports[..n], i);
      UpdateKeeps(m, ImportKey(imports[n]), TrimQuotes(imports[n].path), key);
    }
  }

  /** Updating another key leaves an entry of a map as it was. */
  lemma UpdateKeeps<K, V>(m: map<K, V>, k: K, v: V, key: K)
    requires key in m && key != k
    ensures key in m[k := v] && m[k := v][key] == m[key]
  {
  }

  /** The uniqueness of an import's key carries over to a prefix that still holds it. */
  lemma PrefixKeysUnique(imports: seq<ImportSpec>, n: nat, i: nat)
    requires i < n <= |imports|
    requires forall j :: i < j < |imports| ==> ImportKey(imports[j]) != ImportKey(imports[i])
    ensures imports[..n][i] == imports[i]
    ensures forall j :: i < j < n ==> ImportKey(imports[..n][j]) != ImportKey(imports[..n][i])
  {
    assert forall j :: 0 <= j < n ==> imports[..n][j] == imports[j];
  }

  /** An unnamed import is known by the part of its path after the last slash. */
  lemma UnnamedImportKey(spec: ImportSpec)
    requires spec.name.None?
    ensures var p, k := TrimQuotes(spec.path), ImportKey(spec);
      && '/' !in k && p[|p| - |k|..] == k
      && (|k| < |p| ==> p[|p| - |k| - 1] == '/')
  {
  }

  /** The first file whose position range holds `pos`. */
  function FindFile(files: seq<SourceFile>, pos: int): (r: Option<SourceFile>)
    ensures r.None? <==> forall i :: 0 <= i < |files| ==> !(files[i].start <= pos < files[i].end)
    ensures r.Some? ==> r.value in files && r.value.start <= pos < r.value.end
  {
    if |files| == 0 then None
    else if files[0].start <= pos < files[0].end then Some(files[0])
    else
      var r := FindFile(files[1..], pos);
      assert forall i :: 1 <= i < |files| ==> files[i] == files[1..][i - 1];
      r
  }

  /** The field's doc comment with surrounding white space trimmed, "" without one. */
  function FieldDoc(f: Field): Bytes
  {
    match f.doc
    case None => []
    case Some(text) => TrimSpace(text)
  }

  /** The exported names of `names`, in order. */
  function Exported(names: seq<string>): (r: seq<string>)
    ensures forall k :: 0 <= k < |r| ==> IsExported(r[k]) && r[k] in names
    ensures forall k :: 0 <= k < |names| && IsExported(names[k]) ==> names[k] in r
    ensures |r| == Count(names, IsExported)
  {
    if |names| == 0 then []
    else
      var rest := Exported(names[1..]);
      assert forall k :: 1 <= k < |names| ==> names[k] == names[1..][k - 1];
      if IsExported(names[0]) then [names[0]] + rest else rest
  }

  /** One FieldInfo per name, all sharing the resolved type, decorators and doc. */
  function NamedInfos(names: seq<string>, typeName: string, decorators: seq<string>, doc: Bytes): seq<FieldInfo>
  {
    seq(|names|, k requires 0 <= k < |names| => FieldInfo(names[k], typeName, "", decorators, doc, GoDoc.Parse(doc)))
  }

  /** The entries one struct field contributes: none when its type resolves to "",
      otherwise one per exported name, or one named after the last dot-separated part
      of the type for an embedded field. */
  function FieldEntries(f: Field, pkg: string, imports: map<string, string>): seq<FieldInfo>
  {
    var res := Resolve(f.typ, pkg, imports);
    if res.base == "" then []
    else
      var decorators := Reverse(res.decorators);
      var doc := FieldDoc(f);
      if |f.names| > 0 then NamedInfos(Exported(f.names), res.base, decorators, doc)
      else [FieldInfo(LastPart(res.base, '.'), res.base, "", decorators, doc, GoDoc.Parse(doc))]
  }

  /** The entries of a struct body, field by field in declaration order. */
  function FieldsOf(fields: seq<Field>, pkg: string, imports: map<string, string>): seq<FieldInfo>
  {
    FlatMap(fields, f => FieldEntries(f, pkg, imports))
  }

  /** The external packages recorded while resolving the fields; fields that are later
      skipped still record theirs. */
  function ExternalsOf(fields: seq<Field>, pkg: string, imports: map<string, string>): (r: set<string>)
    ensures r <= imports.Values
  {
    if |fields| == 0 then {}
    else Resolve(fields[0].typ, pkg, imports).external + ExternalsOf(fields[1..], pkg, imports)
  }

  /** Whether a field of that name is present (the loop over typeInfo.Fields). */
  function HasField(fields: seq<FieldInfo>, name: string): (b: bool)
    ensures b <==> exists k :: 0 <= k < |fields| && fields[k].fieldName == name
  {
    if |fields| == 0 then false
    else
      assert forall k :: 1 <= k < |fields| ==> fields[k] == fields[1..][k - 1];
      fields[0].fieldName == name || HasField(fields[1..], name)
  }

  /** The root-type rule: a Kubernetes resource (it has both TypeMeta and ObjectMeta) or
      an RPC message (its name ends in Request or Response). */
  predicate RootRule(typeName: string, fields: seq<FieldInfo>)
  {
    || (HasField(fields, "TypeMeta") && HasField(fields, "ObjectMeta"))
    || (|typeName| >= 7 && typeName[|typeName| - 7..] == "Request")
    || (|typeName| >= 8 && typeName[|typeName| - 8..] == "Response")
  }

  /** The outcome of processing a struct: the updated TypeInfo and the external
      packages its fields refer to. */
  datatype StructResult = StructResult(info: TypeInfo, external: set<string>)

  /** processStruct: `pos` is the position of the type declaration, `files` the files
      of its package. */
  function ProcessStruct(ti: TypeInfo, files: seq<SourceFile>, pos: int, fields: seq<Field>, pkg: string)
    : (r: Result<StructResult, string>)
    ensures r.Failure? <==> forall i :: 0 <= i < |files| ==> !(files[i].start <= pos < files[i].end)
    ensures r.Failure? ==> r.error == "file not found for type " + ti.typeName
    ensures r.Success? ==> var info := r.value.info;
      && info.package == ti.package && info.typeName == ti.typeName
      && info.enumValues == ti.enumValues
      && info.docString == ti.docString && info.parsedDoc == ti.parsedDoc
      && |ti.fields| <= |info.fields| && info.fields[..|ti.fields|] == ti.fields
      && (info.isRoot <==> ti.isRoot || RootRule(ti.typeName, info.fields))
  {
    match FindFile(files, pos)
    case None => Failure("file not found for type " + ti.typeName)
    case Some(file) =>
      var imports := ImportMap(file.imports);
      var all := ti.fields + FieldsOf(fields, pkg, imports);
      assert all[..|ti.fields|] == ti.fields;
      Success(StructResult(
        ti.(fields := all, isRoot := ti.isRoot || RootRule(ti.typeName, all)),
        ExternalsOf(fields, pkg, imports)))
  }

  /** Fields keep their declaration order: the entries of two runs of fields are the
      entries of the first followed by those of the second. */
  lemma {:induction false} FieldsInOrder(a: seq<Field>, b: seq<Field>, pkg: string, imports: map<string, string>)
    ensures FieldsOf(a + b, pkg, imports) == FieldsOf(a, pkg, imports) + FieldsOf(b, pkg, imports)
  {
    FlatMapAppend(a, b, f => FieldEntries(f, pkg, imports));
  }

  /** A named field yields one entry for each of its exported names and for nothing
      else, all with the resolved type, its layers from the outside in, and the trimmed
      doc comment parsed; a field whose type does not resolve yields nothing. */
  lemma NamedFieldEntries(f: Field, pkg: string, imports: map<string, string>)
    requires |f.names| > 0
    ensures var res, es := Resolve(f.typ, pkg, imports), FieldEntries(f, pkg, imports);
      && (res.base == "" ==> es == [])
      && (res.base != "" ==>
            && |es| == |Exported(f.names)|
            && forall k :: 0 <= k < |es| ==>
                 && es[k].fieldName == Exported(f.names)[k] && IsExported(es[k].fieldName)
                 && es[k].typeName == res.base && es[k].package == ""
                 && es[k].decorators == Layers(f.typ, pkg, imports)
                 && es[k].docString == FieldDoc(f)
                 && es[k].parsedDoc == GoDoc.Parse(FieldDoc(f)))
  {
    DecoratorsOutsideIn(f.typ, pkg, imports);
  }

  /** An embedded field yields exactly one entry, named by the part of its resolved type
      after the last dot. */
  lemma EmbeddedFieldEntry(f: Field, pkg: string, imports: map<string, string>)
    requires |f.names| == 0
    requires !Unnamed(Core(f.typ))
    ensures var base, es := Resolve(f.typ, pkg, imports).base, FieldEntries(f, pkg, imports);
      && |es| == 1
      && es[0].typeName == base
      && '.' !in es[0].fieldName
      && base[|base| - |es[0].fieldName|..] == es[0].fieldName
      && (|es[0].fieldName| < |base| ==> base[|base| - |es[0].fieldName| - 1] == '.')
      && es[0].decorators == Layers(f.typ, pkg, imports)
  {
    UnresolvedIff(f.typ, pkg, imports);
    DecoratorsOutsideIn(f.typ, pkg, imports);
  }

  /** A field whose innermost type the resolver cannot name contributes no entry. */
  lemma UnnamedFieldSkipped(f: Field, pkg: string, imports: map<string, string>)
    requires Unnamed(Core(f.typ))
    ensures FieldEntries(f, pkg, imports) == []
  {
    UnresolvedIff(f.typ, pkg, imports);
  }

  /** Every entry of a struct body has a non-empty type name, an empty package and its
      doc parsed from its own doc string. */
  lemma {:induction false} EntriesWellFormed(fields: seq<Field>, pkg: string, imports: map<string, string>)
    ensures forall k :: 0 <= k < |FieldsOf(fields, pkg, imports)| ==>
      var e := FieldsOf(fields, pkg, imports)[k];
      e.typeName != "" && e.package == "" && e.parsedDoc == GoDoc.Parse(e.docString)
  {
    if |fields| > 0 {
      EntriesWellFormed(fields[1..], pkg, imports);
      var head := FieldEntries(fields[0], pkg, imports);
      var rest := FieldsOf(fields[1..], pkg, imports);
      var all: seq<FieldInfo> := head + rest;
      assert FieldsOf(fields, pkg, imports) == all;
      forall k | 0 <= k < |all|
        ensures all[k].typeName != "" && all[k].package == "" && all[k].parsedDoc == GoDoc.Parse(all[k].docString)
      {
        if k >= |head| {
          assert all[k] == rest[k - |head|];
        }
      }
    }
  }
}
