/** Type resolution for struct fields (resolveType / resolveTypeRecursive in
    rex/pkg/parse.go). A Go type expression is reduced to a base type name and a list of
    decorators: pointers, slices and map values are peeled off from the outside in, and
    each layer appends its decorator after those of the layers inside it. */
module TypeExpr {
  import opened Seqs

  /** The shapes of `ast.Expr` the resolver tells apart. */
  datatype Expr =
    | Star(x: Expr)                       // *X
    | Array(elt: Expr)                    // []Elt and [N]Elt
    | MapType(key: Expr, value: Expr)     // map[Key]Value
    | Ident(name: string, declared: bool) // declared: the identifier resolves to an object of this package
    | Selector(x: Expr, sel: string)      // X.Sel
    | Other                               // func, chan, interface, inline struct, ...

  /** The base type name, the decorators in the order the resolver appends them
      (innermost first), and the import paths recorded as external packages. */
  datatype Resolution = Resolution(base: string, decorators: seq<string>, external: set<string>)

  const Ptr: string := "Ptr"
  const List: string := "List"

  /** The decorator of a map whose key type resolves to `key`. */
  function MapDecorator(key: string): string
  {
    "Map[" + key + "]"
  }

  /** Number of pointer, slice and map layers around the innermost type. */
  function Depth(e: Expr): nat
  {
    match e
    case Star(x) => 1 + Depth(x)
    case Array(elt) => 1 + Depth(elt)
    case MapType(_, value) => 1 + Depth(value)
    case _ => 0
  }

  /** The type left once every pointer, slice and map layer is peeled off; for a map
      the value type is followed, the key type is not. */
  function Core(e: Expr): (c: Expr)
    ensures !c.Star? && !c.Array? && !c.MapType?
  {
    match e
    case Star(x) => Core(x)
    case Array(elt) => Core(elt)
    case MapType(_, value) => Core(value)
    case _ => e
  }

  /** A leaf the resolver cannot name: anything but an identifier or a selector on an
      identifier, or an identifier with an empty name that has no object. */
  predicate Unnamed(leaf: Expr)
  {
    || leaf.Other?
    || (leaf.Selector? && !leaf.x.Ident?)
    || (leaf.Ident? && !leaf.declared && leaf.name == "")
  }

  /** resolveTypeRecursive. `imports` maps a file's package names to import paths. */
  function Resolve(e: Expr, pkg: string, imports: map<string, string>): (r: Resolution)
    ensures |r.decorators| == Depth(e)
    ensures r.external <= imports.Values
  {
    match e
    case Star(x) =>
      var inner := Resolve(x, pkg, imports);
      inner.(decorators := inner.decorators + [Ptr])
    case Array(elt) =>
      var inner := Resolve(elt, pkg, imports);
      inner.(decorators := inner.decorators + [List])
    case MapType(key, value) =>
      var k := Resolve(key, pkg, imports);
      var v := Resolve(value, pkg, imports);
      Resolution(v.base, v.decorators + [MapDecorator(k.base)], k.external + v.external)
    case Ident(name, declared) =>
      if !declared then Resolution(name, [], {})
      else Resolution(pkg + "." + name, [], {})
    case Selector(x, sel) =>
      if x.Ident? then
        if x.name in imports then
          Resolution(imports[x.name] + "." + sel, [], {imports[x.name]})
        else
          Resolution(x.name + "." + sel, [], {})
      else
        Resolution("", [], {})
    case Other =>
      Resolution("", [], {})
  }

  /** The decorators of `e` read from the outermost layer inwards: the order the struct
      processor stores them in. */
  function Layers(e: Expr, pkg: string, imports: map<string, string>): seq<string>
  {
    match e
    case Star(x) => [Ptr] + Layers(x, pkg, imports)
    case Array(elt) => [List] + Layers(elt, pkg, imports)
    case MapType(key, value) => [MapDecorator(Resolve(key, pkg, imports).base)] + Layers(value, pkg, imports)
    case _ => []
  }

  /** Every package name that qualifies a selector anywhere in `e`, map keys included. */
  function Qualifiers(e: Expr): set<string>
  {
    match e
    case Star(x) => Qualifiers(x)
    case Array(elt) => Qualifiers(elt)
    case MapType(key, value) => Qualifiers(key) + Qualifiers(value)
    case Ident(_, _) => {}
    case Selector(x, _) => if x.Ident? then {x.name} else {}
    case Other => {}
  }

  /** The packages recorded as external are exactly the import paths of the qualifiers
      the file imports; a qualifier the file does not import records nothing. */
  lemma {:induction false} ExternalIff(e: Expr, pkg: string, imports: map<string, string>)
    ensures Resolve(e, pkg, imports).external
         == set q | q in Qualifiers(e) && q in imports :: imports[q]
  {
    match e
    case Star(x) => ExternalIff(x, pkg, imports);
    case Array(elt) => ExternalIff(elt, pkg, imports);
    case MapType(key, value) =>
      ExternalIff(key, pkg, imports);
      ExternalIff(value, pkg, imports);
    case _ =>
  }

  /** The base name comes from the innermost type alone, whatever surrounds it. */
  lemma {:induction false} BaseFromCore(e: Expr, pkg: string, imports: map<string, string>)
    ensures Resolve(e, pkg, imports).base == Resolve(Core(e), pkg, imports).base
    ensures Resolve(Core(e), pkg, imports).decorators == []
  {
    match e
    case Star(x) => BaseFromCore(x, pkg, imports);
    case Array(elt) => BaseFromCore(elt, pkg, imports);
    case MapType(_, value) => BaseFromCore(value, pkg, imports);
    case _ =>
  }

  /** A field type resolves to the empty name (and is then skipped) exactly when its
      innermost type is one the resolver cannot name. */
  lemma UnresolvedIff(e: Expr, pkg: string, imports: map<string, string>)
    ensures Resolve(e, pkg, imports).base == "" <==> Unnamed(Core(e))
  {
    BaseFromCore(e, pkg, imports);
  }

  /** Reversing the resolver's decorators lists the layers from the outside in: a
      pointer to a slice gives [Ptr, List], a slice of pointers gives [List, Ptr]. */
  lemma {:induction false} DecoratorsOutsideIn(e: Expr, pkg: string, imports: map<string, string>)
    ensures Reverse(Resolve(e, pkg, imports).decorators) == Layers(e, pkg, imports)
  {
    match e
    case Star(x) =>
      DecoratorsOutsideIn(x, pkg, imports);
      ReverseSnoc(Resolve(x, pkg, imports).decorators, Ptr);
    case Array(elt) =>
      DecoratorsOutsideIn(elt, pkg, imports);
      ReverseSnoc(Resolve(elt, pkg, imports).decorators, List);
    case MapType(key, value) =>
      DecoratorsOutsideIn(value, pkg, imports);
      ReverseSnoc(Resolve(value, pkg, imports).decorators, MapDecorator(Resolve(key, pkg, imports).base));
    case _ =>
  }
}
