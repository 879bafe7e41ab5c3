/** The `buildResource` task: resolve a resource specification against an
    uploaded directory tree. A specification names a file, a directory (optionally
    filtered), a task applied to resolved arguments, a table or inline JSON. */
module BuildResource {
  import opened Wrappers
  import opened Json
  import opened Foreign
  import opened BuildUtils

  /** The build system calls the resolver makes, as the values they answer:
      `retrieveJSON(hash)`, `storeJSON(value)` and `build(func, ...args)`. */
  datatype Services = Services(
    retrieveJSON: string -> Result<Value, string>,
    storeJSON: Value -> Result<string, string>,
    build: (Value, seq<Value>) -> Result<Option<string>, string>)

  // ---------------------------------------------------------------------------
  // `path.split('/')`

  predicate NoSlash(s: string) {
    forall i :: 0 <= i < |s| ==> s[i] != '/'
  }

  /** `s.split('/')`: the pieces between the slashes, at least one. */
  function Split(s: string): (parts: seq<string>)
    ensures |parts| >= 1
  {
    if s == [] then [""] else Snoc(Split(s[..|s| - 1]), s[|s| - 1])
  }

  /** One more character: a slash starts a new, empty piece; any other character
      extends the last one. */
  function Snoc(ps: seq<string>, c: char): (qs: seq<string>)
    requires |ps| >= 1
    ensures |qs| >= 1
  {
    if c == '/' then ps + [""] else ps[..|ps| - 1] + [ps[|ps| - 1] + [c]]
  }

  /** `parts.join('/')` */
  function Join(parts: seq<string>): string
    requires |parts| >= 1
  {
    if |parts| == 1 then parts[0] else Join(parts[..|parts| - 1]) + "/" + parts[|parts| - 1]
  }

  lemma {:induction false} SplitJoin(s: string)
    ensures Join(Split(s)) == s
  {
    if s != [] {
      var n := |s| - 1;
      var ps := Split(s[..n]);
      SplitJoin(s[..n]);
      if s[n] != '/' {
        var qs := ps[..|ps| - 1] + [ps[|ps| - 1] + [s[n]]];
        if |ps| > 1 {
          assert qs[..|qs| - 1] == ps[..|ps| - 1];
        }
      } else {
        assert (ps + [""])[..|ps|] == ps;
      }
      assert s == s[..n] + [s[n]];
    }
  }

  /** Splitting at a slash splits the two sides separately. */
  lemma {:induction false} SplitAppend(a: string, b: string)
    ensures Split(a + "/" + b) == Split(a) + Split(b)
    decreases |b|
  {
    if b == [] {
      SplitSnoc(a, '/');
      assert a + "/" + b == a + ['/'];
    } else {
      var n := |b| - 1;
      var b0, c := b[..n], b[n];
      assert b == b0 + [c];
      SplitAppend(a, b0);
      SplitAppendStep(a, b0, c);
    }
  }

  lemma SplitAppendStep(a: string, b0: string, c: char)
    requires Split(a + "/" + b0) == Split(a) + Split(b0)
    ensures Split(a + "/" + (b0 + [c])) == Split(a) + Split(b0 + [c])
  {
    var t := a + "/" + b0;
    assert a + "/" + (b0 + [c]) == t + [c];
    SplitSnoc(t, c);
    SplitSnoc(b0, c);
    SnocAppend(Split(a), Split(b0), c);
  }

  /** The last piece of `pa + pb` is the last piece of `pb`. */
  lemma SnocAppend(pa: seq<string>, pb: seq<string>, c: char)
    requires |pb| >= 1
    ensures Snoc(pa + pb, c) == pa + Snoc(pb, c)
  {
    var ps := pa + pb;
    assert ps[..|ps| - 1] == pa + pb[..|pb| - 1];
  }

  lemma SplitSnoc(t: string, c: char)
    ensures Split(t + [c]) == Snoc(Split(t), c)
  {
    assert (t + [c])[..|t|] == t;
  }

  /** No piece holds a slash. */
  lemma {:induction false} SplitPieces(s: string)
    ensures forall i :: 0 <= i < |Split(s)| ==> NoSlash(Split(s)[i])
  {
    if s != [] {
      var n := |s| - 1;
      SplitPieces(s[..n]);
      var ps := Split(s[..n]);
      if s[n] != '/' {
        var qs := ps[..|ps| - 1] + [ps[|ps| - 1] + [s[n]]];
        assert forall i :: 0 <= i < |ps| - 1 ==> qs[i] == ps[i];
      }
    }
  }

  lemma {:induction false} SplitPiece(s: string)
    requires NoSlash(s)
    ensures Split(s) == [s]
  {
    if s != [] {
      SplitPiece(s[..|s| - 1]);
      assert s == s[..|s| - 1] + [s[|s| - 1]];
    }
  }

  /** Splitting what `Join` glued gives back the pieces. */
  lemma {:induction false} JoinSplit(parts: seq<string>)
    requires |parts| >= 1 && forall i :: 0 <= i < |parts| ==> NoSlash(parts[i])
    ensures Split(Join(parts)) == parts
  {
    var n := |parts| - 1;
    SplitPiece(parts[n]);
    if n > 0 {
      JoinSplit(parts[..n]);
      SplitAppend(Join(parts[..n]), parts[n]);
      assert parts == parts[..n] + [parts[n]];
    }
  }

  // ---------------------------------------------------------------------------
  // The walk of `processFile`/`processDirectory`.

  /** `dir[k]` for `k in dir`: the own property of an object or array. */
  function Field(v: Value, k: string): Value {
    match Member(v, k)
    case Ok(Some(c)) => c
    case _ => Undefined
  }

  /** Every own property but an array's `length` is smaller than its holder. */
  lemma FieldSmaller(v: Value, k: string)
    requires Member(v, k).Ok? && Member(v, k).value.Some? && k != "length"
    ensures Size(Field(v, k)) < Size(v)
  {
    match v
    case Obj(ps) =>
      GetSmaller(ps, k);
    case Arr(items) =>
      var ps := IndexProps(items);
      var j := IndexOf(ps, k);
      PropsSizeBounds(ps, j);
      IndexPropsSize(items);
  }

  /** The walk from `dir` along `parts`: empty parts are skipped, `k in dir` on a
      primitive throws, and a missing part fails with `missing`. */
  function Walked(dir: Value, parts: seq<string>, missing: string): Result<Value, string>
    decreases parts
  {
    if parts == [] then Ok(dir)
    else if parts[0] == "" then Walked(dir, parts[1..], missing)
    else
      match Member(dir, parts[0])
      case Err(e) => Err(e)
      case Ok(None) => Err(missing)
      case Ok(Some(c)) => Walked(c, parts[1..], missing)
  }

  /** The loop `for (i...) if (parts[i].length > 0) { ...; dir = dir[parts[i]]; }`. */
  method Walk(root: Value, parts: seq<string>, missing: string) returns (r: Result<Value, string>)
    ensures r == Walked(root, parts, missing)
  {
    var dir := root;
    var i := 0;
    while i < |parts|
      invariant 0 <= i <= |parts|
      invariant Walked(dir, parts[i..], missing) == Walked(root, parts, missing)
    {
      assert parts[i..][1..] == parts[i + 1..];
      if |parts[i]| > 0 {
        var found := Member(dir, parts[i]);
        if found.Err? {
          return Err(found.error);
        }
        if found.value.None? {
          return Err(missing);
        }
        dir := found.value.value;
      }
      i := i + 1;
    }
    return Ok(dir);
  }

  /** The non-empty parts, in order. */
  function Segments(parts: seq<string>): seq<string> {
    if parts == [] then [] else (if parts[0] == "" then [] else [parts[0]]) + Segments(parts[1..])
  }

  lemma {:induction false} SegmentsAppend(a: seq<string>, b: seq<string>)
    ensures Segments(a + b) == Segments(a) + Segments(b)
  {
    if a != [] {
      SegmentsAppend(a[1..], b);
      assert (a + b)[1..] == a[1..] + b;
    } else {
      assert a + b == b;
    }
  }

  lemma {:induction false} WalkedSegments(dir: Value, parts: seq<string>, missing: string)
    ensures Walked(dir, parts, missing) == Walked(dir, Segments(parts), missing)
    decreases parts
  {
    if parts != [] {
      if parts[0] == "" {
        assert Segments(parts) == [] + Segments(parts[1..]);
        WalkedSegments(dir, parts[1..], missing);
        assert Walked(dir, parts, missing) == Walked(dir, parts[1..], missing);
        assert Segments(parts) == Segments(parts[1..]);
      } else {
        var s := Segments(parts);
        assert s[0] == parts[0] && s[1..] == Segments(parts[1..]);
        match Member(dir, parts[0])
        case Ok(Some(c)) =>
          WalkedSegments(c, parts[1..], missing);
        case _ =>
      }
    }
  }

  /** Leading, trailing and doubled slashes do not change where a path leads. */
  lemma PathSlashes(root: Value, a: string, b: string, missing: string)
    ensures Walked(root, Split("/" + a), missing) == Walked(root, Split(a), missing)
    ensures Walked(root, Split(a + "/"), missing) == Walked(root, Split(a), missing)
    ensures Walked(root, Split(a + "//" + b), missing) == Walked(root, Split(a + "/" + b), missing)
  {
    LeadingSlash(a);
    TrailingSlash(a);
    DoubledSlash(a, b);
    WalkedSegments(root, Split("/" + a), missing);
    WalkedSegments(root, Split(a), missing);
    WalkedSegments(root, Split(a + "/"), missing);
    WalkedSegments(root, Split(a + "//" + b), missing);
    WalkedSegments(root, Split(a + "/" + b), missing);
  }

  /** An array's `length` is an own property, so a path can lead to it. */
  lemma WalkArrayLength(items: seq<Value>, missing: string)
    ensures Walked(Arr(items), ["length"], missing) == Ok(Num(|items|))
  {
    assert ["length"][1..] == [];
  }

  /** In the tree `{"a": ["x", "y"]}` the path `a/length` reaches the number 2. */
  lemma WalkToArrayLength(missing: string)
    ensures Walked(Obj([Prop("a", Arr([Str("x"), Str("y")]))]), Split("a/length"), missing) == Ok(Num(2))
  {
    var parts := ["a", "length"];
    assert Split("a/length") == parts by {
      assert NoSlash("a") && NoSlash("length");
      SplitPiece("a");
      SplitPiece("length");
      SplitAppend("a", "length");
      assert "a" + "/" + "length" == "a/length";
    }
    var items := [Str("x"), Str("y")];
    assert Member(Obj([Prop("a", Arr(items))]), "a") == Ok(Some(Arr(items)));
    assert parts[1..] == ["length"];
    WalkArrayLength(items, missing);
  }

  lemma LeadingSlash(a: string)
    ensures Segments(Split("/" + a)) == Segments(Split(a))
  {
    SplitAppend("", a);
    assert "" + "/" + a == "/" + a;
    assert Split("/" + a) == [""] + Split(a);
    SegmentsAppend([""], Split(a));
    assert Segments([""]) == [];
  }

  lemma TrailingSlash(a: string)
    ensures Segments(Split(a + "/")) == Segments(Split(a))
  {
    SplitAppend(a, "");
    assert a + "/" + "" == a + "/";
    assert Split(a + "/") == Split(a) + [""];
    SegmentsAppend(Split(a), [""]);
    assert Segments([""]) == [];
    assert Segments(Split(a)) + [] == Segments(Split(a));
  }

  lemma DoubledSlash(a: string, b: string)
    ensures Segments(Split(a + "//" + b)) == Segments(Split(a + "/" + b))
  {
    SplitAppend(a, "/" + b);
    assert a + "/" + ("/" + b) == a + "//" + b;
    LeadingSlash(b);
    SplitAppend(a, b);
    SegmentsAppend(Split(a), Split("/" + b));
    SegmentsAppend(Split(a), Split(b));
  }

  // ---------------------------------------------------------------------------
  // The directory filter.

  /** The properties whose key matches `pattern`, in order. */
  function Kept(ff: Foreign, pattern: Value, ps: seq<Prop<Value>>): seq<Prop<Value>> {
    if ps == [] then []
    else
      var n := |ps| - 1;
      Kept(ff, pattern, ps[..n]) + (if ff.regexMatches(pattern, ps[n].key) then [ps[n]] else [])
  }

  /** The loop `if (keys[i].match(regexp)) result[keys[i]] = dir[keys[i]];`. */
  method Filter(ff: Foreign, pattern: Value, ps: seq<Prop<Value>>) returns (result: seq<Prop<Value>>)
    ensures result == AssignAll([], Kept(ff, pattern, ps))
  {
    result := [];
    var i := 0;
    while i < |ps|
      invariant 0 <= i <= |ps|
      invariant result == AssignAll([], Kept(ff, pattern, ps[..i]))
    {
      assert ps[..i + 1][..i] == ps[..i];
      assert ps[..i + 1][i] == ps[i];
      if ff.regexMatches(pattern, ps[i].key) {
        var kept := Kept(ff, pattern, ps[..i]) + [ps[i]];
        assert Kept(ff, pattern, ps[..i + 1]) == kept;
        assert kept[..|kept| - 1] == Kept(ff, pattern, ps[..i]);
        assert AssignAll([], kept) == Assign(AssignAll([], Kept(ff, pattern, ps[..i])), ps[i].key, ps[i].value);
        result := Assign(result, ps[i].key, ps[i].value);
      } else {
        assert Kept(ff, pattern, ps[..i + 1]) == Kept(ff, pattern, ps[..i]) + [];
        assert Kept(ff, pattern, ps[..i]) + [] == Kept(ff, pattern, ps[..i]);
      }
      i := i + 1;
    }
    assert ps[..i] == ps;
  }

  /** Over an object's own properties, the filter keeps exactly the keys that match,
      in their order and with their values. */
  lemma {:induction false} FilterKeeps(ff: Foreign, pattern: Value, ps: seq<Prop<Value>>, k: string)
    requires DistinctKeys(ps)
    ensures AssignAll([], Kept(ff, pattern, ps)) == Kept(ff, pattern, ps)
    ensures k in Keys(Kept(ff, pattern, ps)) <==> k in Keys(ps) && ff.regexMatches(pattern, k)
    ensures k in Keys(Kept(ff, pattern, ps)) ==> Get(Kept(ff, pattern, ps), k) == Get(ps, k)
  {
    var qs := Kept(ff, pattern, ps);
    KeptDistinct(ff, pattern, ps);
    KeptKeys(ff, pattern, ps, k);
    AssignAllFresh(qs);
    if k in Keys(qs) {
      var i := IndexOf(qs, k);
      KeptSub(ff, pattern, ps, qs[i]);
      var j :| 0 <= j < |ps| && ps[j] == qs[i];
      assert j == IndexOf(ps, k);
    }
  }

  lemma {:induction false} KeptSub(ff: Foreign, pattern: Value, ps: seq<Prop<Value>>, q: Prop<Value>)
    requires q in Kept(ff, pattern, ps)
    ensures q in ps && ff.regexMatches(pattern, q.key)
  {
    var n := |ps| - 1;
    if q in Kept(ff, pattern, ps[..n]) {
      KeptSub(ff, pattern, ps[..n], q);
      assert ps[..n] <= ps;
    }
  }

  lemma {:induction false} KeptKeys(ff: Foreign, pattern: Value, ps: seq<Prop<Value>>, k: string)
    ensures k in Keys(Kept(ff, pattern, ps)) <==> k in Keys(ps) && ff.regexMatches(pattern, k)
  {
    if ps != [] {
      var n := |ps| - 1;
      KeptKeys(ff, pattern, ps[..n], k);
      var q0 := Kept(ff, pattern, ps[..n]);
      if ff.regexMatches(pattern, ps[n].key) {
        KeysSnoc(q0, ps[n]);
      } else {
        assert Kept(ff, pattern, ps) == q0;
      }
      KeysSnoc(ps[..n], ps[n]);
      assert ps == ps[..n] + [ps[n]];
    }
  }

  lemma {:induction false} KeptDistinct(ff: Foreign, pattern: Value, ps: seq<Prop<Value>>)
    requires DistinctKeys(ps)
    ensures DistinctKeys(Kept(ff, pattern, ps))
  {
    if ps != [] {
      var n := |ps| - 1;
      var q0 := Kept(ff, pattern, ps[..n]);
      KeptDistinct(ff, pattern, ps[..n]);
      if ff.regexMatches(pattern, ps[n].key) {
        forall i | 0 <= i < |q0| ensures q0[i].key != ps[n].key {
          KeptSub(ff, pattern, ps[..n], q0[i]);
          var j :| 0 <= j < n && ps[..n][j] == q0[i];
          assert ps[j] == q0[i];
        }
        var qs := q0 + [ps[n]];
        assert forall i :: 0 <= i < |q0| ==> qs[i] == q0[i];
      }
    }
  }

  // ---------------------------------------------------------------------------
  // Resolution.

  /** What JavaScript throws for `x.f(...)` on `null`/`undefined` and on a value
      without such a method. */
  function CannotRead(what: string, prop: string): string {
    "TypeError: Cannot read properties of " + what + " (reading '" + prop + "')"
  }

  function NotAFunction(expr: string): string {
    "TypeError: " + expr + " is not a function"
  }

  /** The error `spec[field].method(...)` throws when `spec[field]` is not of the
      right kind. */
  function CallError(field: string, call: string, v: Value): string {
    if v.Null? then CannotRead("null", call)
    else if v.Undefined? then CannotRead("undefined", call)
    else NotAFunction("spec." + field + "." + call)
  }

  datatype Kind = FileRes | DirRes | FuncRes | TableRes | JsonRes

  /** `k in spec` */
  predicate Has(spec: Value, k: string) {
    Member(spec, k).Ok? && Member(spec, k).value.Some?
  }

  /** The `is*Resource` tests in order: `file`, `dir`, `func`, `table`, `json`; the
      first that holds decides. */
  function Classify(ff: Foreign, spec: Value): (r: Result<Kind, string>)
    ensures !(spec.Obj? || spec.Arr?) ==> r == Err(NotSearchable("file", spec))
    ensures r == Ok(FileRes) <==> Has(spec, "file")
    ensures r == Ok(DirRes) <==> !Has(spec, "file") && Has(spec, "dir")
    ensures r == Ok(FuncRes) <==> !Has(spec, "file") && !Has(spec, "dir") && Has(spec, "func")
    ensures r == Ok(TableRes) <==> !Has(spec, "file") && !Has(spec, "dir") && !Has(spec, "func") && Has(spec, "table")
    ensures r == Ok(JsonRes) <==>
      !Has(spec, "file") && !Has(spec, "dir") && !Has(spec, "func") && !Has(spec, "table") && Has(spec, "json")
    ensures (spec.Obj? || spec.Arr?) && r.Err? ==> r.error == "unrecognized resource: " + ff.jsonStringify(spec)
  {
    if !(spec.Obj? || spec.Arr?) then Err(NotSearchable("file", spec))
    else if Has(spec, "file") then Ok(FileRes)
    else if Has(spec, "dir") then Ok(DirRes)
    else if Has(spec, "func") then Ok(FuncRes)
    else if Has(spec, "table") then Ok(TableRes)
    else if Has(spec, "json") then Ok(JsonRes)
    else Err("unrecognized resource: " + ff.jsonStringify(spec))
  }

  /** `spec.ret === 'json'` */
  predicate WantsJson(spec: Value) {
    Field(spec, "ret") == Str("json")
  }

  /** `processFile(spec)` */
  function FileResult(svc: Services, files: Value, spec: Value): (r: Result<Value, string>)
    ensures r.Ok? && !WantsJson(spec) ==>
      && Field(spec, "file").Str?
      && Walked(files, Split(Field(spec, "file").s), "missing file " + Field(spec, "file").s) == r
      && r.value.Str? && r.value.s != ""
    ensures Field(spec, "file").Str? ==>
      var p := Field(spec, "file").s;
      var node := Walked(files, Split(p), "missing file " + p);
      node.Ok? && !(node.value.Str? && node.value.s != "") ==> r == Err("invalid file name: " + p)
  {
    match Field(spec, "file")
    case Str(p) =>
      var node :- Walked(files, Split(p), "missing file " + p);
      FileOf(svc, WantsJson(spec), p, node)
    case v => Err(CallError("file", "split", v))
  }

  /** What `processFile` answers for the node its walk reached. */
  function FileOf(svc: Services, json: bool, p: string, node: Value): Result<Value, string> {
    if !(node.Str? && node.s != "") then Err("invalid file name: " + p)
    else if json then svc.retrieveJSON(node.s)
    else Ok(node)
  }

  /** `if (spec.filter) { ... }` over the node the walk reached. */
  function Filtered(ff: Foreign, filter: Value, node: Value): Result<Value, string> {
    if !Truthy(filter) then Ok(node)
    else if ff.regexError(filter).Some? then Err(ff.regexError(filter).value)
    else
      match OwnProps(node)
      case Ok(ps) => Ok(Obj(AssignAll([], Kept(ff, filter, ps))))
      case Err(e) => Err(e)
  }

  /** `processDirectory(spec)` */
  function DirResult(ff: Foreign, svc: Services, files: Value, spec: Value): (r: Result<Value, string>)
    ensures r.Ok? ==>
      && Field(spec, "dir").Str?
      && var node := Walked(files, Split(Field(spec, "dir").s), "missing directory " + Field(spec, "dir").s);
         node.Ok? && Truthy(node.value) && !node.value.Str?
    ensures Field(spec, "dir").Str? ==>
      var p := Field(spec, "dir").s;
      var node := Walked(files, Split(p), "missing directory " + p);
      node.Ok? && (!Truthy(node.value) || node.value.Str?) ==> r == Err("invalid directory name: " + p)
  {
    match Field(spec, "dir")
    case Str(p) =>
      var node :- Walked(files, Split(p), "missing directory " + p);
      DirOf(ff, svc, Field(spec, "filter"), WantsJson(spec), p, node)
    case v => Err(CallError("dir", "split", v))
  }

  /** What `processDirectory` answers for the node its walk reached. */
  function DirOf(ff: Foreign, svc: Services, filter: Value, json: bool, p: string, node: Value): Result<Value, string> {
    if !Truthy(node) || node.Str? then Err("invalid directory name: " + p)
    else
      var kept :- Filtered(ff, filter, node);
      if json then Ok(kept)
      else
        var hash :- svc.storeJSON(kept);
        Ok(Str(hash))
  }

  /** `processResource(spec)`: dispatch on the kind; tables and inline JSON resolve
      to `undefined`. */
  function Processed(ff: Foreign, svc: Services, files: Value, spec: Value): Result<Value, string>
    decreases Size(spec), 2
  {
    match Classify(ff, spec)
    case Err(e) => Err(e)
    case Ok(FileRes) => FileResult(svc, files, spec)
    case Ok(DirRes) => DirResult(ff, svc, files, spec)
    case Ok(FuncRes) => FuncResult(ff, svc, files, spec)
    case Ok(_) => Ok(Undefined)
  }

  /** `processFunc(spec)`: resolve the arguments, call `build(spec.func, ...args)`
      and answer its hash, or the JSON it names. */
  function FuncResult(ff: Foreign, svc: Services, files: Value, spec: Value): Result<Value, string>
    decreases Size(spec), 1
  {
    match Field(spec, "args")
    case Arr(items) =>
      FieldSmaller(spec, "args");
      var args :- ProcessedAll(ff, svc, files, items);
      var hash :- svc.build(Field(spec, "func"), args);
      if WantsJson(spec) then
        if hash.None? then Err(CannotRead("undefined", "match")) else svc.retrieveJSON(hash.value)
      else
        Ok(if hash.Some? then Str(hash.value) else Undefined)
    case v => Err(CallError("args", "map", v))
  }

  /** `Promise.all(spec.args.map(processResource))`: the resolved arguments in
      order, or the first error. */
  function ProcessedAll(ff: Foreign, svc: Services, files: Value, items: seq<Value>): Result<seq<Value>, string>
    decreases ItemsSize(items), 3, |items|
  {
    if items == [] then Ok([])
    else
      var n := |items| - 1;
      var init :- ProcessedAll(ff, svc, files, items[..n]);
      var last :- Processed(ff, svc, files, items[n]);
      Ok(init + [last])
  }

  /** What resolving each argument on its own answers. */
  function Each(ff: Foreign, svc: Services, files: Value, items: seq<Value>): (rs: seq<Result<Value, string>>)
    ensures |rs| == |items| && forall i :: 0 <= i < |items| ==> rs[i] == Processed(ff, svc, files, items[i])
  {
    Mapped((spec: Value) => Processed(ff, svc, files, spec), items)
  }

  /** `xs.map(f)` */
  function Mapped<A, B>(f: A -> B, xs: seq<A>): (ys: seq<B>)
    ensures |ys| == |xs| && forall i :: 0 <= i < |xs| ==> ys[i] == f(xs[i])
  {
    seq(|xs|, i requires 0 <= i < |xs| => f(xs[i]))
  }

  lemma MappedSnoc<A, B>(f: A -> B, xs: seq<A>)
    requires xs != []
    ensures Mapped(f, xs) == Mapped(f, xs[..|xs| - 1]) + [f(xs[|xs| - 1])]
  {
    var n := |xs| - 1;
    var ys, ys0 := Mapped(f, xs), Mapped(f, xs[..n]);
    forall j | 0 <= j < n
      ensures ys[j] == ys0[j]
    {
      assert xs[..n][j] == xs[j];
    }
  }

  /** The arguments are resolved positionally: the call receives what each argument
      resolves to, in order, or the first error among them. */
  lemma {:induction false} ArgsPositional(ff: Foreign, svc: Services, files: Value, items: seq<Value>)
    ensures ProcessedAll(ff, svc, files, items) == Gathered(Each(ff, svc, files, items))
  {
    if items != [] {
      var n := |items| - 1;
      ArgsPositional(ff, svc, files, items[..n]);
      EachSnoc(ff, svc, files, items);
      GatheredSnoc(Each(ff, svc, files, items[..n]), Processed(ff, svc, files, items[n]));
    }
  }

  lemma EachSnoc(ff: Foreign, svc: Services, files: Value, items: seq<Value>)
    requires items != []
    ensures Each(ff, svc, files, items)
      == Each(ff, svc, files, items[..|items| - 1]) + [Processed(ff, svc, files, items[|items| - 1])]
  {
    MappedSnoc((spec: Value) => Processed(ff, svc, files, spec), items);
  }

  /** `Promise.all` of one more promise. */
  lemma GatheredSnoc<T>(rs: seq<Result<T, string>>, last: Result<T, string>)
    ensures Gathered(rs + [last]) == (
      if Gathered(rs).Err? then Err(Gathered(rs).error)
      else if last.Err? then Err(last.error)
      else Ok(Gathered(rs).value + [last.value]))
  {
    assert (rs + [last])[..|rs|] == rs;
  }

  /** Tables and inline JSON currently resolve to nothing. */
  lemma TableAndJsonUndefined(ff: Foreign, svc: Services, files: Value, spec: Value)
    requires !Has(spec, "file") && !Has(spec, "dir") && !Has(spec, "func")
    requires Has(spec, "table") || Has(spec, "json")
    ensures Processed(ff, svc, files, spec) == Ok(Undefined)
  {
  }

  lemma ItemSmaller(items: seq<Value>, i: int)
    requires 0 <= i < |items|
    ensures Size(items[i]) <= ItemsSize(items[..i + 1])
  {
    assert items[..i + 1][..i] == items[..i];
  }

  lemma {:induction false} ProcessedAllFails(ff: Foreign, svc: Services, files: Value, items: seq<Value>, i: int)
    requires 0 <= i <= |items| && ProcessedAll(ff, svc, files, items[..i]).Err?
    ensures ProcessedAll(ff, svc, files, items) == ProcessedAll(ff, svc, files, items[..i])
    decreases |items| - i
  {
    if i < |items| {
      assert items[..i + 1][..i] == items[..i];
      ProcessedAllFails(ff, svc, files, items, i + 1);
    } else {
      assert items[..i] == items;
    }
  }

  /** `processFile` */
  method ProcessFile(svc: Services, files: Value, spec: Value) returns (r: Result<Value, string>)
    ensures r == FileResult(svc, files, spec)
  {
    match Field(spec, "file")
    case Str(p) =>
      var node :- Walk(files, Split(p), "missing file " + p);
      r := FinishFile(svc, WantsJson(spec), p, node);
    case v =>
      return Err(CallError("file", "split", v));
  }

  method FinishFile(svc: Services, json: bool, p: string, node: Value) returns (r: Result<Value, string>)
    ensures r == FileOf(svc, json, p, node)
  {
    if !(node.Str? && node.s != "") {
      return Err("invalid file name: " + p);
    }
    if json {
      return svc.retrieveJSON(node.s);
    }
    return Ok(node);
  }

  /** `processDirectory` */
  method ProcessDirectory(ff: Foreign, svc: Services, files: Value, spec: Value) returns (r: Result<Value, string>)
    ensures r == DirResult(ff, svc, files, spec)
  {
    match Field(spec, "dir")
    case Str(p) =>
      var node :- Walk(files, Split(p), "missing directory " + p);
      r := FinishDirectory(ff, svc, Field(spec, "filter"), WantsJson(spec), p, node);
    case v =>
      return Err(CallError("dir", "split", v));
  }

  method FinishDirectory(ff: Foreign, svc: Services, filter: Value, json: bool, p: string, node: Value)
    returns (r: Result<Value, string>)
    ensures r == DirOf(ff, svc, filter, json, p, node)
  {
    if !Truthy(node) || node.Str? {
      return Err("invalid directory name: " + p);
    }
    var dir :- FilterNode(ff, filter, node);
    if json {
      return Ok(dir);
    }
    var hash :- svc.storeJSON(dir);
    return Ok(Str(hash));
  }

  /** `if (spec.filter) { const keys = Object.keys(dir); ... dir = result; }` */
  method FilterNode(ff: Foreign, filter: Value, node: Value) returns (r: Result<Value, string>)
    requires Truthy(node)
    ensures r == Filtered(ff, filter, node)
  {
    if !Truthy(filter) {
      return Ok(node);
    }
    var keys := OwnProps(node);
    if ff.regexError(filter).Some? {
      return Err(ff.regexError(filter).value);
    }
    var kept := Filter(ff, filter, keys.value);
    return Ok(Obj(kept));
  }

  /** `processFunc` */
  method ProcessFunc(ff: Foreign, svc: Services, files: Value, spec: Value) returns (r: Result<Value, string>)
    ensures r == FuncResult(ff, svc, files, spec)
    decreases Size(spec), 1
  {
    match Field(spec, "args")
    case Arr(items) =>
      FieldSmaller(spec, "args");
      var args :- ProcessArgs(ff, svc, files, items);
      var hash :- svc.build(Field(spec, "func"), args);
      if WantsJson(spec) {
        if hash.None? {
          return Err(CannotRead("undefined", "match"));
        }
        return svc.retrieveJSON(hash.value);
      }
      return Ok(if hash.Some? then Str(hash.value) else Undefined);
    case v =>
      return Err(CallError("args", "map", v));
  }

  /** `Promise.all(spec.args.map(processResource))`, one argument after another. */
  method ProcessArgs(ff: Foreign, svc: Services, files: Value, items: seq<Value>) returns (r: Result<seq<Value>, string>)
    ensures r == ProcessedAll(ff, svc, files, items)
    decreases ItemsSize(items), 3, |items|
  {
    var args: seq<Value> := [];
    var i := 0;
    while i < |items|
      invariant 0 <= i <= |items|
      invariant ProcessedAll(ff, svc, files, items[..i]) == Ok(args)
    {
      ItemBound(items, i);
      var arg := ProcessResource(ff, svc, files, items[i]);
      ArgsStep(ff, svc, files, items, i, args, arg);
      if arg.Err? {
        return Err(arg.error);
      }
      args := args + [arg.value];
      i := i + 1;
    }
    AllItems(items);
    return Ok(args);
  }

  lemma ItemBound(items: seq<Value>, i: int)
    requires 0 <= i < |items|
    ensures Size(items[i]) <= ItemsSize(items)
  {
    ItemSmaller(items, i);
    ItemsSizeSplit(items, i + 1);
  }

  /** One more argument resolved: it extends the list, or its error is the
      answer for the whole list. */
  lemma ArgsStep(ff: Foreign, svc: Services, files: Value, items: seq<Value>, i: int,
                 args: seq<Value>, arg: Result<Value, string>)
    requires 0 <= i < |items|
    requires ProcessedAll(ff, svc, files, items[..i]) == Ok(args)
    requires Processed(ff, svc, files, items[i]) == arg
    ensures arg.Ok? ==> ProcessedAll(ff, svc, files, items[..i + 1]) == Ok(args + [arg.value])
    ensures arg.Err? ==> ProcessedAll(ff, svc, files, items) == Err(arg.error)
  {
    assert items[..i + 1][..i] == items[..i];
    assert items[..i + 1][i] == items[i];
    if arg.Err? {
      ProcessedAllFails(ff, svc, files, items, i + 1);
    }
  }

  lemma AllItems<T>(items: seq<T>)
    ensures items[..|items|] == items
  {
  }

  lemma {:induction false} ItemsSizeSplit(items: seq<Value>, i: int)
    requires 0 <= i <= |items|
    ensures ItemsSize(items) == ItemsSize(items[..i]) + ItemsSize(items[i..])
    decreases |items|
  {
    if i < |items| {
      var n := |items| - 1;
      ItemsSizeSplit(items[..n], i);
      assert items[..n][..i] == items[..i];
      assert items[i..][..|items[i..]| - 1] == items[..n][i..];
    } else {
      assert items[..i] == items;
    }
  }

  /** `processResource` */
  method ProcessResource(ff: Foreign, svc: Services, files: Value, spec: Value) returns (r: Result<Value, string>)
    ensures r == Processed(ff, svc, files, spec)
    decreases Size(spec), 2
  {
    var kind := Classify(ff, spec);
    if kind.Err? {
      return Err(kind.error);
    }
    match kind.value
    case FileRes => r := ProcessFile(svc, files, spec);
    case DirRes => r := ProcessDirectory(ff, svc, files, spec);
    case FuncRes => r := ProcessFunc(ff, svc, files, spec);
    case TableRes => r := Ok(Undefined);
    case JsonRes => r := Ok(Undefined);
  }

  /** `buildResource(dirHash, resourceHash)`: retrieve the directory tree and the
      specification, resolve, and store the result. */
  function BuildResourceResult(ff: Foreign, svc: Services, dirHash: string, resourceHash: string): Result<string, string> {
    var files :- svc.retrieveJSON(dirHash);
    var resource :- svc.retrieveJSON(resourceHash);
    var value :- Processed(ff, svc, files, resource);
    svc.storeJSON(value)
  }

  method BuildResource(ff: Foreign, svc: Services, dirHash: string, resourceHash: string) returns (r: Result<string, string>)
    ensures r == BuildResourceResult(ff, svc, dirHash, resourceHash)
  {
    var files := svc.retrieveJSON(dirHash);
    var resource := svc.retrieveJSON(resourceHash);
    if files.Err? {
      return Err(files.error);
    }
    if resource.Err? {
      return Err(resource.error);
    }
    var value := ProcessResource(ff, svc, files.value, resource.value);
    if value.Err? {
      return Err(value.error);
    }
    r := svc.storeJSON(value.value);
  }
}
