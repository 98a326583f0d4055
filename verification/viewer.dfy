/** The string helpers of the browser viewer (rex/pkg/app.js): splitting a qualified
    type name for display, rendering stored decorators as a Go type prefix, and reading
    the location hash back into a root type and a field path. JavaScript strings are
    sequences of characters here; the hash is taken after URL decoding. */
module Viewer {
  import opened Wrappers
  import opened Seqs
  import TypeExpr

  /** JavaScript `substring(start, end)`: both bounds clamped to [0, |s|] and swapped
      when the start lies past the end. */
  function Substring(s: string, start: int, end: int): (r: string)
    ensures |r| <= |s|
    ensures 0 <= start <= end <= |s| ==> r == s[start..end]
  {
    var a := if start < 0 then 0 else if start > |s| then |s| else start;
    var b := if end < 0 then 0 else if end > |s| then |s| else end;
    if a <= b then s[a..b] else s[b..a]
  }

  /** The package and type shown for a type name. */
  datatype TypeParts = TypeParts(pkg: string, typ: string)

  /** splitTypeName: everything before the last dot is the package. */
  function SplitTypeName(full: string): (r: TypeParts)
    ensures '.' !in full ==> r == TypeParts("", full)
    ensures '.' in full ==> r.pkg + "." + r.typ == full && '.' !in r.typ
  {
    var lastDot := LastIndexOf(full, '.');
    if lastDot == -1 then TypeParts("", full)
    else
      var r := TypeParts(Substring(full, 0, lastDot), Substring(full, lastDot + 1, |full|));
      assert full == full[..lastDot] + [full[lastDot]] + full[lastDot + 1..];
      r
  }

  /** A qualified name splits back into its package and its type, whatever dots the
      package path holds. */
  lemma SplitQualified(pkg: string, name: string)
    requires '.' !in name
    ensures SplitTypeName(pkg + "." + name) == TypeParts(pkg, name)
  {
    var full := pkg + "." + name;
    assert full[|pkg|] == '.';
    var r := SplitTypeName(full);
    assert r.pkg + "." + r.typ == full;
    assert r.typ == full[|full| - |name|..] == name;
    assert r.pkg == full[..|pkg|] == pkg;
  }

  /** The viewer shows as a field's type the same name the parser gives an embedded
      field of that type: the part after the last dot. */
  lemma SplitTypeMatchesEmbedded(full: string)
    ensures SplitTypeName(full).typ == LastPart(full, '.')
  {
    var r := LastPart(full, '.');
    var lastDot := LastIndexOf(full, '.');
    if lastDot >= 0 {
      var parts := SplitTypeName(full);
      AfterLastSep(full, '.', lastDot, r);
      SuffixAfterSep(full, parts.pkg, '.', parts.typ);
      AfterLastSep(full, '.', lastDot, parts.typ);
    } else {
      WholeWithoutSep(full, '.', r);
    }
  }

  /** The part after a separator, as a suffix that the separator precedes. */
  lemma SuffixAfterSep<T>(s: seq<T>, a: seq<T>, sep: T, b: seq<T>)
    requires s == a + [sep] + b
    ensures |b| < |s| && s[|s| - |b|..] == b && s[|s| - |b| - 1] == sep
  {
    assert s[|s| - |b|..] == b;
  }

  /** With no separator in `s`, a suffix that would otherwise follow one is all of `s`. */
  lemma WholeWithoutSep<T>(s: seq<T>, sep: T, r: seq<T>)
    requires sep !in s
    requires |r| <= |s| && s[|s| - |r|..] == r
    requires |r| < |s| ==> s[|s| - |r| - 1] == sep
    ensures r == s
  {
    assert |r| == |s|;
  }

  /** A separator-free suffix that follows a separator (or is the whole sequence) is
      everything after the last separator. */
  lemma AfterLastSep<T>(s: seq<T>, sep: T, i: nat, r: seq<T>)
    requires i < |s| && s[i] == sep && sep !in s[i + 1..]
    requires sep !in r && |r| <= |s| && s[|s| - |r|..] == r
    requires |r| < |s| ==> s[|s| - |r| - 1] == sep
    ensures r == s[i + 1..]
  {
    var q := |s| - |r|;
    assert q > i by {
      assert forall k :: q <= k < |s| ==> s[k] == r[k - q];
    }
    assert q <= i + 1 by {
      assert s[q - 1] == sep;
      assert forall k :: i < k < |s| ==> s[k] == s[i + 1..][k - i - 1];
    }
  }

  /** The rendering of one decorator token: pointer, slice and map tokens become their
      Go syntax; anything else renders as nothing. */
  function Token(dec: string): string
  {
    if dec == "Ptr" then "*"
    else if dec == "List" then "[]"
    else if |dec| >= 4 && dec[..4] == "Map[" then "map[" + Substring(dec, 4, |dec| - 1) + "]"
    else ""
  }

  /** formatDecorators: the tokens rendered left to right; a missing list gives "". */
  function FormatDecorators(decorators: Option<seq<string>>): (r: string)
    ensures decorators.None? || decorators.value == [] ==> r == ""
  {
    match decorators
    case None => ""
    case Some(ds) => Render(ds)
  }

  function Render(ds: seq<string>): string
  {
    if |ds| == 0 then "" else Token(ds[0]) + Render(ds[1..])
  }

  /** Rendering a list is rendering its two halves, one after the other. */
  lemma {:induction false} RenderAppend(a: seq<string>, b: seq<string>)
    ensures Render(a + b) == Render(a) + Render(b)
  {
    if |a| == 0 {
      assert a + b == b;
    } else {
      assert (a + b)[0] == a[0];
      assert (a + b)[1..] == a[1..] + b;
      RenderAppend(a[1..], b);
    }
  }

  /** A token the viewer does not know contributes nothing, wherever it stands. */
  lemma UnknownTokenIgnored(a: seq<string>, d: string, b: seq<string>)
    requires d != "Ptr" && d != "List" && !(|d| >= 4 && d[..4] == "Map[")
    ensures Render(a + [d] + b) == Render(a + b)
  {
    RenderAppend(a + [d], b);
    RenderAppend(a, [d]);
    RenderAppend(a, b);
    RenderSingle(d);
  }

  lemma RenderSingle(d: string)
    ensures Render([d]) == Token(d)
  {
    assert [d][1..] == [];
  }

  /** A map token renders with exactly the key type it was built from. */
  lemma MapTokenRoundTrip(key: string)
    ensures Token(TypeExpr.MapDecorator(key)) == "map[" + key + "]"
  {
    var dec := TypeExpr.MapDecorator(key);
    assert dec[..4] == "Map[";
    assert dec[4..|dec| - 1] == key;
  }

  /** The Go syntax of the pointer, slice and map layers around a type, outermost
      first, with map keys written as their resolved names. */
  function GoPrefix(e: TypeExpr.Expr, pkg: string, imports: map<string, string>): string
  {
    match e
    case Star(x) => "*" + GoPrefix(x, pkg, imports)
    case Array(elt) => "[]" + GoPrefix(elt, pkg, imports)
    case MapType(key, value) =>
      "map[" + TypeExpr.Resolve(key, pkg, imports).base + "]" + GoPrefix(value, pkg, imports)
    case _ => ""
  }

  /** The decorators the parser stores for a field (the resolver's list reversed) render
      in the viewer as the Go prefix of the field's type: `*[]` for `*[]T`,
      `map[string]` for `map[string]bool`. */
  lemma {:induction false} DecoratorsRenderPrefix(e: TypeExpr.Expr, pkg: string, imports: map<string, string>)
    ensures FormatDecorators(Some(Reverse(TypeExpr.Resolve(e, pkg, imports).decorators))) == GoPrefix(e, pkg, imports)
  {
    TypeExpr.DecoratorsOutsideIn(e, pkg, imports);
    LayersRender(e, pkg, imports);
  }

  lemma {:induction false} LayersRender(e: TypeExpr.Expr, pkg: string, imports: map<string, string>)
    ensures Render(TypeExpr.Layers(e, pkg, imports)) == GoPrefix(e, pkg, imports)
  {
    match e
    case Star(x) =>
      LayersRender(x, pkg, imports);
      RenderAppend([TypeExpr.Ptr], TypeExpr.Layers(x, pkg, imports));
    case Array(elt) =>
      LayersRender(elt, pkg, imports);
      RenderAppend([TypeExpr.List], TypeExpr.Layers(elt, pkg, imports));
    case MapType(key, value) =>
      var k := TypeExpr.Resolve(key, pkg, imports).base;
      LayersRender(value, pkg, imports);
      MapTokenRoundTrip(k);
      RenderAppend([TypeExpr.MapDecorator(k)], TypeExpr.Layers(value, pkg, imports));
    case _ =>
  }

  /** The index of the last segment holding a dot, -1 when none does. */
  function LastDotted(parts: seq<string>): (i: int)
    ensures -1 <= i < |parts|
    ensures i == -1 <==> forall k :: 0 <= k < |parts| ==> '.' !in parts[k]
    ensures i >= 0 ==> '.' in parts[i] && forall k :: i < k < |parts| ==> '.' !in parts[k]
  {
    if |parts| == 0 then -1
    else if '.' in parts[|parts| - 1] then |parts| - 1
    else LastDotted(parts[..|parts| - 1])
  }

  /** The root type named by a hash and the field path below it. */
  datatype HashParts = HashParts(root: Option<string>, fields: seq<string>)

  /** hashToParts on the decoded hash: empty gives no root and no fields; otherwise the
      hash is read from its `/`-separated segments. */
  function HashToParts(path: string): (r: HashParts)
    ensures path == "" <==> r.root.None?
    ensures r.root.None? ==> r.fields == []
    ensures r.root.Some? ==> Join([r.root.value] + r.fields, '/') == path
    ensures r.root.Some? && '.' in r.root.value ==> forall k :: 0 <= k < |r.fields| ==> '.' !in r.fields[k]
    ensures var parts := Split(path, '/');
      r.root.Some? && (forall k :: 0 <= k < |parts| ==> '.' !in parts[k]) ==>
      r.root.value == parts[0] && r.fields == parts[1..]
  {
    if |path| == 0 then HashParts(None, [])
    else HashOfSegments(Split(path, '/'))
  }

  /** The root and fields read from the segments of a non-empty hash: the segments up
      to the last one holding a dot form the root type; with no dotted segment the first
      segment is the root. */
  function HashOfSegments(parts: seq<string>): (r: HashParts)
    requires |parts| >= 1
    ensures r.root.Some? && Join([r.root.value] + r.fields, '/') == Join(parts, '/')
    ensures '.' in r.root.value ==> forall k :: 0 <= k < |r.fields| ==> '.' !in r.fields[k]
    ensures (forall k :: 0 <= k < |parts| ==> '.' !in parts[k]) ==>
      r.root.value == parts[0] && r.fields == parts[1..]
  {
    var last := LastDotted(parts);
    JoinPrefix(parts, if last == -1 then 1 else last + 1, '/');
    if last == -1 then HashParts(Some(parts[0]), parts[1..])
    else HashParts(Some(Join(parts[..last + 1], '/')), parts[last + 1..])
  }

  /** The hash the viewer writes for a root type and the fields selected below it
      (updateHash joins them with `/`) reads back as that root type and those fields,
      provided the type is qualified and no field name holds a dot or a slash. */
  lemma HashRoundTrip(pkg: string, name: string, fields: seq<string>)
    requires '/' !in name
    requires forall k :: 0 <= k < |fields| ==> '.' !in fields[k] && '/' !in fields[k]
    ensures HashToParts(Join([pkg + "." + name] + fields, '/')) == HashParts(Some(pkg + "." + name), fields)
  {
    var root := pkg + "." + name;
    var rootParts := Split(root, '/');
    RootParts(pkg, name, root, rootParts);
    RoundTripFromParts(root, rootParts, fields);
  }

  /** The `/`-segments of a qualified name: none holds a slash, and the last holds the
      dot before the type name. */
  lemma RootParts(pkg: string, name: string, root: string, rootParts: seq<string>)
    requires root == pkg + "." + name && '/' !in name && rootParts == Split(root, '/')
    ensures |rootParts| >= 1 && Join(rootParts, '/') == root && '.' in rootParts[|rootParts| - 1]
    ensures forall k :: 0 <= k < |rootParts| ==> '/' !in rootParts[k]
  {
    LastOfJoin(rootParts, '/', root);
    DotInLastSegment(root, pkg, name, rootParts[|rootParts| - 1]);
  }

  /** The round trip, given the segments of the root type. */
  lemma RoundTripFromParts(root: string, rootParts: seq<string>, fields: seq<string>)
    requires |rootParts| >= 1 && Join(rootParts, '/') == root && '.' in rootParts[|rootParts| - 1]
    requires forall k :: 0 <= k < |rootParts| ==> '/' !in rootParts[k]
    requires forall k :: 0 <= k < |fields| ==> '.' !in fields[k] && '/' !in fields[k]
    ensures HashToParts(Join([root] + fields, '/')) == HashParts(Some(root), fields)
  {
    var n := |rootParts|;
    var all := rootParts + fields;
    ConcatParts(rootParts, fields);
    JoinPrefix(all, n, '/');
    HashOfParts(all, n);
  }

  /** The segments of a root type followed by field names: the facts the round trip
      rests on. */
  lemma ConcatParts(rootParts: seq<string>, fields: seq<string>)
    requires |rootParts| >= 1 && '.' in rootParts[|rootParts| - 1]
    requires forall k :: 0 <= k < |rootParts| ==> '/' !in rootParts[k]
    requires forall k :: 0 <= k < |fields| ==> '.' !in fields[k] && '/' !in fields[k]
    ensures var all, n := rootParts + fields, |rootParts|;
      && all[..n] == rootParts && all[n..] == fields
      && '.' in all[n - 1]
      && (forall k :: 0 <= k < |all| ==> '/' !in all[k])
      && (forall k :: n <= k < |all| ==> '.' !in all[k])
  {
    var all, n := rootParts + fields, |rootParts|;
    assert all[..n] == rootParts && all[n..] == fields;
    forall k | 0 <= k < |all|
      ensures '/' !in all[k] && (k >= n ==> '.' !in all[k])
    {
      if k >= n {
        assert all[k] == fields[k - n];
      } else {
        assert all[k] == rootParts[k];
      }
    }
  }

  /** The hash of segments none of which holds a slash, where segment `n - 1` is the
      last to hold a dot, reads back as the first `n` segments and the rest. */
  lemma HashOfParts(all: seq<string>, n: nat)
    requires 1 <= n <= |all|
    requires forall k :: 0 <= k < |all| ==> '/' !in all[k]
    requires '.' in all[n - 1]
    requires forall k :: n <= k < |all| ==> '.' !in all[k]
    ensures HashToParts(Join(all, '/')) == HashParts(Some(Join(all[..n], '/')), all[n..])
  {
    var path := Join(all, '/');
    assert |path| > 0 by {
      JoinLonger(all, '/', n - 1);
    }
    assert Split(path, '/') == all by {
      SplitJoin(all, '/');
    }
    SegmentsSplitAtDot(all, n);
  }

  /** Segments whose last dotted one is segment `n - 1` read as the first `n` segments
      and the rest. */
  lemma SegmentsSplitAtDot(all: seq<string>, n: nat)
    requires 1 <= n <= |all|
    requires '.' in all[n - 1]
    requires forall k :: n <= k < |all| ==> '.' !in all[k]
    ensures HashOfSegments(all) == HashParts(Some(Join(all[..n], '/')), all[n..])
  {
    assert LastDotted(all) == n - 1;
  }

  /** The last slash-separated segment of a qualified name holds the dot before the
      type name. */
  lemma QualifiedLastSegment(pkg: string, name: string)
    requires '/' !in name
    ensures '.' in LastPart(pkg + "." + name, '/')
  {
    var root := pkg + "." + name;
    DotInLastSegment(root, pkg, name, LastPart(root, '/'));
  }

  /** A slash-free suffix that reaches back to a slash, or to the start, covers the dot
      of `pkg + "." + name` when `name` holds no slash. */
  lemma DotInLastSegment(root: string, pkg: string, name: string, last: string)
    requires root == pkg + "." + name && '/' !in name
    requires |last| <= |root| && root[|root| - |last|..] == last
    requires |last| < |root| ==> root[|root| - |last| - 1] == '/'
    ensures '.' in last
  {
    var start := |root| - |last|;
    assert forall j :: |pkg| <= j < |root| ==> root[j] != '/' by {
      forall j | |pkg| < j < |root| ensures root[j] != '/' {
        assert root[j] == name[j - |pkg| - 1];
      }
    }
    assert start <= |pkg|;
    assert last[|pkg| - start] == root[|pkg|] == '.';
  }
}
