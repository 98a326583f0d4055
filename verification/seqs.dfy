/** Splitting and joining sequences on a one-element separator, the shape shared by
    Go's `strings.Split`/`strings.Join` and JavaScript's `split`/`join`. */
module Seqs {

  /** The parts joined back together, with `sep` between each pair of neighbours. */
  function Join<T>(parts: seq<seq<T>>, sep: T): seq<T>
  {
    if |parts| == 0 then []
    else if |parts| == 1 then parts[0]
    else parts[0] + [sep] + Join(parts[1..], sep)
  }

  /** Splits `s` at every occurrence of `sep`; `n` separators give `n + 1` parts, so the
      empty sequence gives one empty part. */
  function Split<T(==)>(s: seq<T>, sep: T): (parts: seq<seq<T>>)
    ensures |parts| >= 1
    ensures forall i :: 0 <= i < |parts| ==> sep !in parts[i]
    ensures Join(parts, sep) == s
    ensures parts[0] <= s && (|parts[0]| < |s| ==> s[|parts[0]|] == sep)
    decreases |s|
  {
    if |s| == 0 then [[]]
    else
      var rest := Split(s[1..], sep);
      if s[0] == sep then
        assert s == [sep] + s[1..];
        [[]] + rest
      else
        JoinConsHead(s[0], rest, sep);
        assert s == [s[0]] + s[1..];
        [[s[0]] + rest[0]] + rest[1..]
  }

  /** Prepending to the first part prepends to the joined sequence. */
  lemma JoinConsHead<T>(x: T, parts: seq<seq<T>>, sep: T)
    requires |parts| >= 1
    ensures Join([[x] + parts[0]] + parts[1..], sep) == [x] + Join(parts, sep)
  {
    var ps := [[x] + parts[0]] + parts[1..];
    assert ps[0] == [x] + parts[0];
    if |parts| > 1 {
      assert ps[1..] == parts[1..];
      var j := Join(parts[1..], sep);
      assert Join(ps, sep) == ([x] + parts[0]) + [sep] + j;
      assert Join(parts, sep) == parts[0] + [sep] + j;
      Assoc([x], parts[0] + [sep], j);
      Assoc([x], parts[0], [sep]);
    } else {
      assert ps == [[x] + parts[0]];
      assert Join(ps, sep) == [x] + parts[0];
    }
  }

  lemma Assoc<T>(a: seq<T>, b: seq<T>, c: seq<T>)
    ensures (a + b) + c == a + (b + c)
  {
  }

  /** Joining distributes over concatenation of part lists. */
  lemma {:induction false} JoinAppend<T>(a: seq<seq<T>>, b: seq<seq<T>>, sep: T)
    requires |a| >= 1 && |b| >= 1
    ensures Join(a + b, sep) == Join(a, sep) + [sep] + Join(b, sep)
    decreases |a|
  {
    if |a| == 1 {
      assert (a + b)[1..] == b;
    } else {
      assert (a + b)[1..] == a[1..] + b;
      JoinAppend(a[1..], b, sep);
    }
  }

  /** Every element of a joined sequence is the separator or comes from some part. */
  lemma {:induction false} JoinElements<T>(parts: seq<seq<T>>, sep: T, P: T -> bool)
    requires P(sep)
    requires forall i, j :: 0 <= i < |parts| && 0 <= j < |parts[i]| ==> P(parts[i][j])
    ensures forall k :: 0 <= k < |Join(parts, sep)| ==> P(Join(parts, sep)[k])
    decreases |parts|
  {
    if |parts| > 1 {
      JoinElements(parts[1..], sep, P);
      var rest := Join(parts[1..], sep);
      var all := parts[0] + [sep] + rest;
      forall k | 0 <= k < |all| ensures P(all[k]) {
        if k < |parts[0]| {
          assert all[k] == parts[0][k];
        } else if k > |parts[0]| {
          assert all[k] == rest[k - |parts[0]| - 1];
        }
      }
    }
  }

  /** Conversely, a property of every element of a joined sequence holds of every
      element of every part. */
  lemma {:induction false} JoinElementsBack<T>(parts: seq<seq<T>>, sep: T, P: T -> bool)
    requires forall k :: 0 <= k < |Join(parts, sep)| ==> P(Join(parts, sep)[k])
    ensures forall i, j :: 0 <= i < |parts| && 0 <= j < |parts[i]| ==> P(parts[i][j])
    decreases |parts|
  {
    if |parts| > 1 {
      var rest := Join(parts[1..], sep);
      var all := parts[0] + [sep] + rest;
      assert Join(parts, sep) == all;
      assert forall j :: 0 <= j < |parts[0]| ==> all[j] == parts[0][j];
      assert forall k :: 0 <= k < |rest| ==> rest[k] == all[k + |parts[0]| + 1];
      JoinElementsBack(parts[1..], sep, P);
      forall i, j | 0 <= i < |parts| && 0 <= j < |parts[i]| ensures P(parts[i][j]) {
        if i == 0 {
          assert P(all[j]);
        } else {
          assert parts[i] == parts[1..][i - 1];
        }
      }
    } else if |parts| == 1 {
      assert Join(parts, sep) == parts[0];
    }
  }

  /** Split is the inverse of Join when no part contains the separator: the round trip
      in the other direction from `Split`'s own contract. */
  lemma {:induction false} SplitJoin<T>(parts: seq<seq<T>>, sep: T)
    requires |parts| >= 1
    requires forall i :: 0 <= i < |parts| ==> sep !in parts[i]
    ensures Split(Join(parts, sep), sep) == parts
    decreases |parts|, |parts[0]|
  {
    var s := Join(parts, sep);
    if |parts[0]| == 0 {
      if |parts| == 1 {
        assert s == [];
      } else {
        assert s == [sep] + Join(parts[1..], sep);
        assert s[1..] == Join(parts[1..], sep);
        SplitJoin(parts[1..], sep);
        assert parts == [[]] + parts[1..];
      }
    } else {
      var x := parts[0][0];
      var shorter := [parts[0][1..]] + parts[1..];
      assert parts[0] == [x] + parts[0][1..];
      assert shorter[0] == parts[0][1..] && shorter[1..] == parts[1..];
      JoinConsHead(x, shorter, sep);
      assert [[x] + shorter[0]] + shorter[1..] == parts;
      assert s == [x] + Join(shorter, sep);
      assert s[1..] == Join(shorter, sep);
      assert x != sep by { assert x == parts[0][0]; }
      SplitJoin(shorter, sep);
    }
  }

  /** How many elements of `s` satisfy `P`. */
  function Count<T>(s: seq<T>, P: T -> bool): nat
  {
    if |s| == 0 then 0 else (if P(s[0]) then 1 else 0) + Count(s[1..], P)
  }

  lemma {:induction false} CountAppend<T>(a: seq<T>, b: seq<T>, P: T -> bool)
    ensures Count(a + b, P) == Count(a, P) + Count(b, P)
  {
    if |a| > 0 {
      assert (a + b)[0] == a[0];
      assert (a + b)[1..] == a[1..] + b;
      CountAppend(a[1..], b, P);
    } else {
      assert a + b == b;
    }
  }

  lemma {:induction false} CountNone<T>(s: seq<T>, P: T -> bool)
    requires forall k :: 0 <= k < |s| ==> !P(s[k])
    ensures Count(s, P) == 0
  {
    if |s| > 0 {
      CountNone(s[1..], P);
    }
  }

  lemma CountSlices<T>(s: seq<T>, a: nat, b: nat, c: nat, P: T -> bool)
    requires a <= b <= c <= |s|
    ensures Count(s[a..c], P) == Count(s[a..b], P) + Count(s[b..c], P)
  {
    assert s[a..c] == s[a..b] + s[b..c];
    CountAppend(s[a..b], s[b..c], P);
  }

  lemma CountFirstOnly<T>(s: seq<T>, P: T -> bool)
    requires |s| > 0 && P(s[0])
    requires forall k :: 1 <= k < |s| ==> !P(s[k])
    ensures Count(s, P) == 1
  {
    assert s == [s[0]] + s[1..];
    CountNone(s[1..], P);
  }

  /** The index of the last `x` in `s`, or -1 when there is none (JavaScript `lastIndexOf`). */
  function LastIndexOf<T(==)>(s: seq<T>, x: T): (i: int)
    ensures -1 <= i < |s|
    ensures i == -1 <==> x !in s
    ensures i >= 0 ==> s[i] == x && x !in s[i + 1..]
    decreases |s|
  {
    if |s| == 0 then -1
    else if s[|s| - 1] == x then
      assert s[|s|..] == [];
      |s| - 1
    else
      var j := LastIndexOf(s[..|s| - 1], x);
      assert s == s[..|s| - 1] + [s[|s| - 1]];
      if j >= 0 then
        assert s[j + 1..] == s[..|s| - 1][j + 1..] + [s[|s| - 1]];
        j
      else
        j
  }

  /** The elements of `s` in the opposite order. */
  function Reverse<T>(s: seq<T>): (r: seq<T>)
    ensures |r| == |s|
    ensures forall i :: 0 <= i < |s| ==> r[i] == s[|s| - 1 - i]
  {
    if |s| == 0 then [] else Reverse(s[1..]) + [s[0]]
  }

  lemma ReverseSnoc<T>(s: seq<T>, x: T)
    ensures Reverse(s + [x]) == [x] + Reverse(s)
  {
  }

  lemma ReverseReverse<T>(s: seq<T>)
    ensures Reverse(Reverse(s)) == s
  {
  }

  /** The joined sequence ends with the last part, preceded by the separator when there
      is more than one part. */
  lemma JoinEndsWithLast<T>(parts: seq<seq<T>>, sep: T)
    requires |parts| >= 1
    ensures var j, last := Join(parts, sep), parts[|parts| - 1];
      && |last| <= |j| && j[|j| - |last|..] == last
      && (|parts| >= 2 ==> |last| < |j| && j[|j| - |last| - 1] == sep)
  {
    var n := |parts|;
    if n >= 2 {
      assert parts == parts[..n - 1] + [parts[n - 1]];
      JoinAppend(parts[..n - 1], [parts[n - 1]], sep);
    }
  }

  /** The part after the last separator: `parts[len(parts)-1]` of a split. */
  function LastPart<T(==)>(s: seq<T>, sep: T): (r: seq<T>)
    ensures sep !in r
    ensures |r| <= |s| && s[|s| - |r|..] == r
    ensures |r| < |s| ==> s[|s| - |r| - 1] == sep
  {
    var parts := Split(s, sep);
    JoinEndsWithLast(parts, sep);
    parts[|parts| - 1]
  }

  /** The last of the parts joined into `s` is a suffix of `s`, preceded by the
      separator unless it is all of `s`. */
  lemma LastOfJoin<T>(parts: seq<seq<T>>, sep: T, s: seq<T>)
    requires |parts| >= 1 && Join(parts, sep) == s
    ensures var last := parts[|parts| - 1];
      && |last| <= |s| && s[|s| - |last|..] == last
      && (|last| < |s| ==> s[|s| - |last| - 1] == sep)
  {
    JoinEndsWithLast(parts, sep);
    if |parts| == 1 {
      assert Join(parts, sep) == parts[0];
    }
  }

  /** Joining a prefix of the parts into one part first does not change the result. */
  lemma JoinPrefix<T>(parts: seq<seq<T>>, n: nat, sep: T)
    requires 1 <= n <= |parts|
    ensures Join([Join(parts[..n], sep)] + parts[n..], sep) == Join(parts, sep)
  {
    var head, tail := parts[..n], parts[n..];
    var x := Join(head, sep);
    assert parts == head + tail;
    JoinSingle(x, sep);
    if n < |parts| {
      JoinAppend(head, tail, sep);
      JoinAppend([x], tail, sep);
    } else {
      assert head == parts;
      assert [x] + tail == [x];
    }
  }

  lemma JoinSingle<T>(x: seq<T>, sep: T)
    ensures Join([x], sep) == x
  {
  }

  /** A joined sequence is at least as long as any of its parts. */
  lemma {:induction false} JoinLonger<T>(parts: seq<seq<T>>, sep: T, i: nat)
    requires i < |parts|
    ensures |Join(parts, sep)| >= |parts[i]|
  {
    if i > 0 {
      assert parts[i] == parts[1..][i - 1];
      JoinLonger(parts[1..], sep, i - 1);
    }
  }

  /** The concatenation of `f` applied to each element, in order. */
  function FlatMap<A, B>(s: seq<A>, f: A -> seq<B>): seq<B>
  {
    if |s| == 0 then [] else f(s[0]) + FlatMap(s[1..], f)
  }

  lemma {:induction false} FlatMapAppend<A, B>(a: seq<A>, b: seq<A>, f: A -> seq<B>)
    ensures FlatMap(a + b, f) == FlatMap(a, f) + FlatMap(b, f)
  {
    if |a| == 0 {
      assert a + b == b;
    } else {
      assert (a + b)[0] == a[0];
      assert (a + b)[1..] == a[1..] + b;
      FlatMapAppend(a[1..], b, f);
    }
  }
}
