/** The resource generator's pure parts: the TypeScript type it infers for a
    built resource's JSON, and the name of the constant it declares for it. */
module ResourceTypes {
  import opened Wrappers
  import opened Json

  // ---------------------------------------------------------------------------
  // `inferType`

  /** What `inferType` of an array throws: it calls itself on the same array. */
  const UNBOUNDED := "RangeError: Maximum call stack size exceeded"

  /** `xs.join(sep)` */
  function JoinWith(sep: string, xs: seq<string>): string {
    if xs == [] then ""
    else if |xs| == 1 then xs[0]
    else JoinWith(sep, xs[..|xs| - 1]) + sep + xs[|xs| - 1]
  }

  /** `inferType(json)`: the name of a primitive's type, `{'k':T; ...}` for an
      object in key order, `never` for `undefined`. */
  function InferType(v: Value): (r: Result<string, string>)
    ensures v.Str? ==> r == Ok("string")
    ensures v.Num? ==> r == Ok("number")
    ensures v.Bool? ==> r == Ok("boolean")
    ensures v.Undefined? ==> r == Ok("never")
    ensures v.Arr? ==> r == Err(UNBOUNDED)
    ensures v.Null? ==> r == Err(NOT_AN_OBJECT)
    ensures v.Obj? && r.Ok? ==> |r.value| >= 2 && r.value[0] == '{' && r.value[|r.value| - 1] == '}'
    decreases Size(v), 0
  {
    match v
    case Str(_) => Ok("string")
    case Num(_) => Ok("number")
    case Bool(_) => Ok("boolean")
    case Undefined => Ok("never")
    case Null => Err(NOT_AN_OBJECT)
    case Arr(_) => Err(UNBOUNDED)
    case Obj(ps) =>
      var entries :- PropTypes(ps);
      Ok("{" + JoinWith("; ", entries) + "}")
  }

  /** The entries `'prop':T` of an object's properties, in order; the first
      property whose type fails decides the error. */
  function PropTypes(ps: seq<Prop<Value>>): (r: Result<seq<string>, string>)
    ensures r.Ok? ==> |r.value| == |ps|
    decreases PropsSize(ps), 1, |ps|
  {
    if ps == [] then Ok([])
    else
      var n := |ps| - 1;
      var init :- PropTypes(ps[..n]);
      var t :- InferType(ps[n].value);
      Ok(init + ["'" + ps[n].key + "':" + t])
  }

  /** Two values have the same shape when they are of the same kind and, for
      objects, have the same keys in the same order with values of the same shape. */
  ghost predicate SameShape(a: Value, b: Value)
    decreases Size(a), 0
  {
    match a
    case Obj(ps) => b.Obj? && SameShapeProps(ps, b.props)
    case Str(_) => b.Str?
    case Num(_) => b.Num?
    case Bool(_) => b.Bool?
    case Arr(_) => b.Arr?
    case Null => b.Null?
    case Undefined => b.Undefined?
  }

  ghost predicate SameShapeProps(ps: seq<Prop<Value>>, qs: seq<Prop<Value>>)
    decreases PropsSize(ps), 1, |ps|
  {
    |ps| == |qs| &&
    (ps != [] ==>
      var n := |ps| - 1;
      ps[n].key == qs[n].key && SameShapeProps(ps[..n], qs[..n]) && SameShape(ps[n].value, qs[n].value))
  }

  /** The inferred type depends only on the shape: which keys, in which order,
      and the kinds of the leaves, never on the leaves' contents. */
  lemma {:induction false} ShapeDecidesType(a: Value, b: Value)
    requires SameShape(a, b)
    ensures InferType(a) == InferType(b)
    decreases Size(a), 0
  {
    if a.Obj? {
      ShapeDecidesPropTypes(a.props, b.props);
    }
  }

  lemma {:induction false} ShapeDecidesPropTypes(ps: seq<Prop<Value>>, qs: seq<Prop<Value>>)
    requires SameShapeProps(ps, qs)
    ensures PropTypes(ps) == PropTypes(qs)
    decreases PropsSize(ps), 1, |ps|
  {
    if ps != [] {
      var n := |ps| - 1;
      ShapeDecidesPropTypes(ps[..n], qs[..n]);
      ShapeDecidesType(ps[n].value, qs[n].value);
    }
  }

  /** Entry `i` of an object's type is its `i`-th key quoted, a colon, and the type
      of its value. */
  lemma {:induction false} PropTypesAt(ps: seq<Prop<Value>>, i: int)
    requires PropTypes(ps).Ok? && 0 <= i < |ps|
    ensures InferType(ps[i].value).Ok?
    ensures PropTypes(ps).value[i] == "'" + ps[i].key + "':" + InferType(ps[i].value).value
    decreases |ps|
  {
    var n := |ps| - 1;
    if i < n {
      PropTypesAt(ps[..n], i);
    }
  }

  /** `inferType` fails exactly on `null`, arrays, and objects holding one of them
      somewhere. */
  lemma {:induction false} PropTypesFail(ps: seq<Prop<Value>>)
    ensures PropTypes(ps).Ok? <==> forall i :: 0 <= i < |ps| ==> InferType(ps[i].value).Ok?
    decreases |ps|
  {
    if ps != [] {
      var n := |ps| - 1;
      PropTypesFail(ps[..n]);
      assert forall i :: 0 <= i < n ==> ps[..n][i] == ps[i];
    }
  }

  // ---------------------------------------------------------------------------
  // The constant's name: `path.basename(name).replace('.json', '')`, upper-cased,
  // with `_RES` appended.

  /** `s` without its trailing slashes. */
  function TrimSlashes(s: string): (t: string)
    ensures t <= s && (t == [] || t[|t| - 1] != '/')
    ensures forall i :: |t| <= i < |s| ==> s[i] == '/'
  {
    if s == [] || s[|s| - 1] != '/' then s else TrimSlashes(s[..|s| - 1])
  }

  /** The position just after the last `/` of `s`, or 0. */
  function AfterLastSlash(s: string): (i: nat)
    ensures i <= |s| && (i > 0 ==> s[i - 1] == '/')
    ensures forall j :: i <= j < |s| ==> s[j] != '/'
  {
    if s == [] then 0 else if s[|s| - 1] == '/' then |s| else AfterLastSlash(s[..|s| - 1])
  }

  /** `path.basename(p)` on POSIX: the last segment, ignoring trailing slashes. */
  function Basename(p: string): (b: string)
    ensures forall i :: 0 <= i < |b| ==> b[i] != '/'
  {
    var t := TrimSlashes(p);
    t[AfterLastSlash(t)..]
  }

  lemma {:induction false} TrimTrailing(t: string, s: string)
    requires t == [] || t[|t| - 1] != '/'
    requires forall i :: 0 <= i < |s| ==> s[i] == '/'
    ensures TrimSlashes(t + s) == t
    decreases |s|
  {
    if s != [] {
      var n := |s| - 1;
      assert (t + s)[..|t + s| - 1] == t + s[..n];
      TrimTrailing(t, s[..n]);
    }
  }

  lemma {:induction false} AfterSegment(d: string, b: string)
    requires d == [] || d[|d| - 1] == '/'
    requires forall i :: 0 <= i < |b| ==> b[i] != '/'
    ensures AfterLastSlash(d + b) == |d|
    decreases |b|
  {
    if b == [] {
      assert d + b == d;
    } else {
      var n := |b| - 1;
      assert (d + b)[..|d + b| - 1] == d + b[..n];
      AfterSegment(d, b[..n]);
    }
  }

  /** A path made of a directory part ending in `/` (or none), a non-empty segment
      and only slashes after it has that segment as its base name. */
  lemma BasenameOf(d: string, b: string, s: string)
    requires d == [] || d[|d| - 1] == '/'
    requires b != [] && forall i :: 0 <= i < |b| ==> b[i] != '/'
    requires forall i :: 0 <= i < |s| ==> s[i] == '/'
    ensures Basename(d + b + s) == b
  {
    TrimTrailing(d + b, s);
    AfterSegment(d, b);
  }

  /** `pat` occurs in `s` at position `j`. */
  predicate OccursAt(s: string, pat: string, j: int) {
    0 <= j && j + |pat| <= |s| && s[j..j + |pat|] == pat
  }

  lemma OccursShift(s: string, pat: string, j: int)
    requires s != [] && 0 <= j
    ensures OccursAt(s[1..], pat, j) <==> OccursAt(s, pat, j + 1)
  {
    if j + |pat| <= |s| - 1 {
      assert s[1..][j..j + |pat|] == s[j + 1..j + 1 + |pat|];
    }
  }

  /** `s.indexOf(pat)`: where `pat` first occurs in `s`, or -1. */
  function IndexOfText(s: string, pat: string): (i: int)
    ensures i == -1 || OccursAt(s, pat, i)
    ensures forall j :: 0 <= j && (i < 0 || j < i) ==> !OccursAt(s, pat, j)
    decreases |s|
  {
    if |s| < |pat| then -1
    else if s[..|pat|] == pat then 0
    else
      var i := IndexOfText(s[1..], pat);
      assert !OccursAt(s, pat, 0);
      assert forall j :: 0 <= j ==> (OccursAt(s[1..], pat, j) <==> OccursAt(s, pat, j + 1)) by {
        forall j | 0 <= j { OccursShift(s, pat, j); }
      }
      forall j | 1 <= j
        ensures OccursAt(s, pat, j) <==> OccursAt(s[1..], pat, j - 1)
      {
        OccursShift(s, pat, j - 1);
      }
      if i < 0 then -1 else i + 1
  }

  /** `s.replace(pat, '')` with a string pattern: the first occurrence removed. */
  function RemoveFirst(s: string, pat: string): (r: string)
    ensures |r| <= |s|
    ensures forall j :: 0 <= j < |r| ==> r[j] == s[j] || (j + |pat| < |s| && r[j] == s[j + |pat|])
  {
    var i := IndexOfText(s, pat);
    if i < 0 then s else s[..i] + s[i + |pat|..]
  }

  /** Cutting out the first `.json`: a name in which `.json` first occurs right
      after `a` loses exactly those five characters. */
  lemma RemoveFirstJson(s: string, a: string, c: string)
    requires s == a + ".json" + c
    requires forall j :: 0 <= j < |a| ==> !OccursAt(s, ".json", j)
    ensures RemoveFirst(s, ".json") == a + c
  {
    assert s[|a|..|a| + 5] == ".json";
    assert OccursAt(s, ".json", |a|);
    assert IndexOfText(s, ".json") == |a|;
    assert s[..|a|] == a && s[|a| + 5..] == c;
  }

  /** ASCII `toUpperCase` of one character. */
  function UpperChar(c: char): (u: char)
    ensures !('a' <= u <= 'z')
    ensures u == '/' <==> c == '/'
  {
    if 'a' <= c <= 'z' then (c as int - 32) as char else c
  }

  /** ASCII `toUpperCase`. */
  function Upper(s: string): (u: string)
    ensures |u| == |s| && forall i :: 0 <= i < |s| ==> u[i] == UpperChar(s[i])
  {
    seq(|s|, i requires 0 <= i < |s| => UpperChar(s[i]))
  }

  /** Upper-casing twice is upper-casing once. */
  lemma UpperIdempotent(s: string)
    ensures Upper(Upper(s)) == Upper(s)
  {
    assert forall i :: 0 <= i < |s| ==> UpperChar(UpperChar(s[i])) == UpperChar(s[i]);
  }

  lemma UpperAppend(a: string, b: string)
    ensures Upper(a + b) == Upper(a) + Upper(b)
  {
    assert forall i :: 0 <= i < |a| ==> (a + b)[i] == a[i];
  }

  lemma RemoveFirstNoSlash(s: string, pat: string)
    requires forall i :: 0 <= i < |s| ==> s[i] != '/'
    ensures forall i :: 0 <= i < |RemoveFirst(s, pat)| ==> RemoveFirst(s, pat)[i] != '/'
  {
  }

  /** The declared constant's name for a resource file name. */
  function TypeName(resourceName: string): (r: string)
    ensures |r| >= 4 && r[|r| - 4..] == "_RES"
  {
    Upper(RemoveFirst(Basename(resourceName), ".json")) + "_RES"
  }

  /** Appending `_RES` to an upper-case, slash-free name keeps it so. */
  lemma ResSuffix(u: string)
    requires forall i :: 0 <= i < |u| ==> u[i] != '/' && !('a' <= u[i] <= 'z')
    requires Upper(u) == u
    ensures var n := u + "_RES";
      && n[|n| - 4..] == "_RES"
      && (forall i :: 0 <= i < |n| ==> n[i] != '/' && !('a' <= n[i] <= 'z'))
      && Upper(n) == n
  {
    var n := u + "_RES";
    assert n[|n| - 4..] == "_RES";
    UpperAppend(u, "_RES");
    assert Upper("_RES") == "_RES";
  }

  /** The name ends in `_RES`, is four characters longer than the base name with
      its `.json` cut out, holds no slash and no lower-case ASCII letter, and
      upper-casing it again changes nothing. */
  lemma TypeNameShape(resourceName: string)
    ensures var n := TypeName(resourceName);
      && |n| == |RemoveFirst(Basename(resourceName), ".json")| + 4
      && n[|n| - 4..] == "_RES"
      && (forall i :: 0 <= i < |n| ==> n[i] != '/' && !('a' <= n[i] <= 'z'))
      && Upper(n) == n
  {
    var b := RemoveFirst(Basename(resourceName), ".json");
    RemoveFirstNoSlash(Basename(resourceName), ".json");
    UpperIdempotent(b);
    ResSuffix(Upper(b));
  }
}
