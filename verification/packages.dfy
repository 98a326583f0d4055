/** Registering the types of a package (processType in rex/pkg/parse.go) and the
    test that decides which referenced packages are followed (ParsePackages). */
module Packages {
  import opened Wrappers
  import opened Seqs
  import opened Bytes
  import opened Structs
  import GoDoc

  /** What a type declaration declares. For an identifier type, `enumValues` is what
      the enum detection yields: None when the type is not an enum. */
  datatype TypeBody =
    | StructBody(fields: seq<Field>)
    | IdentBody(enumValues: Option<seq<EnumInfo>>)
    | OtherBody

  /** The type spec of a declaration: its name, its position and what it declares. */
  datatype TypeSpec = TypeSpec(name: string, pos: int, body: TypeBody)

  /** A documented type: the first spec of its declaration when that is a type spec,
      and its doc comment as given, untrimmed. */
  datatype DocType = DocType(spec: Option<TypeSpec>, doc: Bytes)

  /** Every type registered so far under its qualified name, and the external packages
      referred to by their fields. */
  datatype Registry = Registry(types: map<string, TypeInfo>, external: set<string>)

  function Qualified(pkg: string, name: string): string
  {
    pkg + "." + name
  }

  /** The record a type starts from: no fields, no enum values, not a root. The doc
      string is trimmed, but the parsed doc is parsed from the untrimmed comment. */
  function Initial(pkg: string, name: string, doc: Bytes): TypeInfo
  {
    TypeInfo(pkg, name, [], [], false, TrimSpace(doc), GoDoc.Parse(doc))
  }

  /** The record and external packages a type produces, or None when it is neither a
      struct whose file is found nor an enum. */
  function Outcome(spec: TypeSpec, doc: Bytes, pkg: string, files: seq<SourceFile>): (r: Option<StructResult>)
    ensures r.Some? ==> var info := r.value.info;
      && info.package == pkg && info.typeName == spec.name
      && info.docString == TrimSpace(doc) && info.parsedDoc == GoDoc.Parse(doc)
  {
    match spec.body
    case StructBody(fields) =>
      (match ProcessStruct(Initial(pkg, spec.name, doc), files, spec.pos, fields, pkg)
       case Success(res) => Some(res)
       case Failure(_) => None)
    case IdentBody(values) =>
      (match values
       case Some(vs) => Some(StructResult(Initial(pkg, spec.name, doc).(enumValues := vs), {}))
       case None => None)
    case OtherBody => None
  }

  /** Whether processType inserts the type: an exported type spec, not yet registered,
      with an outcome. */
  predicate Registers(reg: Registry, t: DocType, pkg: string, files: seq<SourceFile>)
  {
    && t.spec.Some?
    && IsExported(t.spec.value.name)
    && Qualified(pkg, t.spec.value.name) !in reg.types
    && Outcome(t.spec.value, t.doc, pkg, files).Some?
  }

  /** processType. */
  function ProcessType(reg: Registry, t: DocType, pkg: string, files: seq<SourceFile>): (r: Registry)
    ensures forall k :: k in reg.types ==> k in r.types && r.types[k] == reg.types[k]
    ensures reg.external <= r.external
    ensures !Registers(reg, t, pkg, files) ==> r == reg
    ensures Registers(reg, t, pkg, files) ==> Qualified(pkg, t.spec.value.name) in r.types
    ensures Registers(reg, t, pkg, files) ==>
      var name := t.spec.value.name;
      var info := r.types[Qualified(pkg, name)];
      && r.types.Keys == reg.types.Keys + {Qualified(pkg, name)}
      && IsExported(name)
      && info.package == pkg && info.typeName == name
      && info.docString == TrimSpace(t.doc) && info.parsedDoc == GoDoc.Parse(t.doc)
  {
    if t.spec.None? || !IsExported(t.spec.value.name) then reg
    else Insert(reg, Qualified(pkg, t.spec.value.name), Outcome(t.spec.value, t.doc, pkg, files))
  }

  /** Processing the same type twice is the same as processing it once: a registered
      type is skipped the second time, an unregistered one is refused again. */
  lemma ProcessTypeIdempotent(reg: Registry, t: DocType, pkg: string, files: seq<SourceFile>)
    ensures ProcessType(ProcessType(reg, t, pkg, files), t, pkg, files) == ProcessType(reg, t, pkg, files)
  {
  }

  /** A struct is registered with its fields in declaration order and the root rule
      applied to them, unless the file holding it is not found. */
  lemma RegisteredStruct(reg: Registry, t: DocType, pkg: string, files: seq<SourceFile>)
    requires t.spec.Some? && t.spec.value.body.StructBody?
    requires IsExported(t.spec.value.name) && Qualified(pkg, t.spec.value.name) !in reg.types
    ensures var spec := t.spec.value;
      var r := ProcessType(reg, t, pkg, files);
      match FindFile(files, spec.pos)
      case None => r == reg
      case Some(file) =>
        var imports := ImportMap(file.imports);
        var info := r.types[Qualified(pkg, spec.name)];
        && info.fields == FieldsOf(spec.body.fields, pkg, imports)
        && info.enumValues == []
        && (info.isRoot <==> RootRule(spec.name, info.fields))
        && r.external == reg.external + ExternalsOf(spec.body.fields, pkg, imports)
  {
  }

  /** The no-overwrite insertion: a name already present keeps its record, and a type
      without an outcome is not inserted. */
  function Insert(reg: Registry, q: string, outcome: Option<StructResult>): Registry
  {
    if q in reg.types then reg
    else
      match outcome
      case None => reg
      case Some(res) => Registry(reg.types[q := res.info], reg.external + res.external)
  }

  /** Insertions under different names commute. */
  lemma InsertCommutes(reg: Registry, q1: string, o1: Option<StructResult>, q2: string, o2: Option<StructResult>)
    requires q1 != q2
    ensures Insert(Insert(reg, q1, o1), q2, o2) == Insert(Insert(reg, q2, o2), q1, o1)
  {
    if q1 !in reg.types && q2 !in reg.types && o1.Some? && o2.Some? {
      assert reg.types[q1 := o1.value.info][q2 := o2.value.info]
          == reg.types[q2 := o2.value.info][q1 := o1.value.info];
      assert reg.external + o1.value.external + o2.value.external
          == reg.external + o2.value.external + o1.value.external;
    }
  }

  /** Two types with different qualified names may be processed in either order. */
  lemma ProcessTypeCommutes(reg: Registry, t1: DocType, t2: DocType, pkg: string, files: seq<SourceFile>)
    requires t1.spec.Some? && t2.spec.Some? && t1.spec.value.name != t2.spec.value.name
    ensures ProcessType(ProcessType(reg, t1, pkg, files), t2, pkg, files)
         == ProcessType(ProcessType(reg, t2, pkg, files), t1, pkg, files)
  {
    if IsExported(t1.spec.value.name) && IsExported(t2.spec.value.name) {
      QualifiedInjective(pkg, t1.spec.value.name, t2.spec.value.name);
      InsertCommutes(reg, Qualified(pkg, t1.spec.value.name), Outcome(t1.spec.value, t1.doc, pkg, files),
                          Qualified(pkg, t2.spec.value.name), Outcome(t2.spec.value, t2.doc, pkg, files));
    }
  }

  /** Types with different names have different qualified names. */
  lemma QualifiedInjective(pkg: string, a: string, b: string)
    requires a != b
    ensures Qualified(pkg, a) != Qualified(pkg, b)
  {
    assert Qualified(pkg, a)[|pkg| + 1..] == a;
    assert Qualified(pkg, b)[|pkg| + 1..] == b;
  }

  /** The standard-library test: the first `/`-separated component of the import path
      has no dot. */
  predicate IsStdLibPath(path: string)
  {
    '.' !in Split(path, '/')[0]
  }

  /** Equivalently, every dot in the path comes after some slash. */
  lemma StdLibIff(path: string)
    ensures IsStdLibPath(path) <==> forall k :: 0 <= k < |path| && path[k] == '.' ==> '/' in path[..k]
  {
    var first := Split(path, '/')[0];
    if IsStdLibPath(path) {
      forall k | 0 <= k < |path| && path[k] == '.'
        ensures '/' in path[..k]
      {
        assert k >= |first|;
        assert path[..k][|first|] == '/';
      }
    } else {
      var k :| 0 <= k < |first| && first[k] == '.';
      assert path[k] == '.';
      assert path[..k] == first[..k];
    }
  }
}
