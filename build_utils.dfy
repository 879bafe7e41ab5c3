/** The utility build tasks: the three file-extension transforms over a directory
    tree, the JSON merge and the byte concatenation. Each task is modelled as the
    value it hands to `storeJSON`/`storeContent`, given what it retrieved. */
module BuildUtils {
  import opened Wrappers
  import opened Bytes
  import opened Json

  // ---------------------------------------------------------------------------
  // The extension of a key: what `/\.[^.]*$/` matches.

  /** The position of the last `.` in `s`, or -1. */
  function LastDot(s: string): (i: int)
    ensures -1 <= i < |s|
    ensures 0 <= i ==> s[i] == '.'
    ensures forall j :: i < j < |s| ==> s[j] != '.'
  {
    if s == [] then -1
    else if s[|s| - 1] == '.' then |s| - 1
    else LastDot(s[..|s| - 1])
  }

  /** `key.match(/\.[^.]*$/)`: the suffix from the last `.`, if there is a `.`. */
  function Extension(key: string): Option<string> {
    var i := LastDot(key);
    if i < 0 then None else Some(key[i..])
  }

  /** `ext ? ext[0] : ''` */
  function ExtText(key: string): string {
    if Extension(key).Some? then Extension(key).value else ""
  }

  /** `key.replace(/\.[^.]*$/, '')` */
  function Stem(key: string): string {
    var i := LastDot(key);
    if i < 0 then key else key[..i]
  }

  /** A key splits into stem and extension, and the extension is exactly a `.`
      followed by no other `.`: any such split of the key is the one found. */
  lemma {:induction false} StemExtension(key: string, a: string, e: string)
    ensures Stem(key) + ExtText(key) == key
    ensures Extension(key).None? <==> forall j :: 0 <= j < |key| ==> key[j] != '.'
    ensures key == a + e && |e| >= 1 && e[0] == '.' && (forall j :: 1 <= j < |e| ==> e[j] != '.') <==>
      Extension(key) == Some(e) && Stem(key) == a
  {
    var i := LastDot(key);
    if key == a + e && |e| >= 1 && e[0] == '.' && (forall j :: 1 <= j < |e| ==> e[j] != '.') {
      assert key[|a|] == '.';
      assert forall j :: |a| < j < |key| ==> key[j] == e[j - |a|];
      assert i == |a|;
      assert key[i..] == e;
    }
    if 0 <= i {
      assert key[..i] + key[i..] == key;
    }
  }

  // ---------------------------------------------------------------------------
  // The transforms: the `rec` helpers of `removeExtensions`, `swapExtensions` and
  // `copyExtensions` (and of the resource generator, which is `swapExtensions`').

  datatype Mode = RemoveExt | SwapExt | CopyExt

  /** The key a leaf (a value that is not `typeof 'object'`) is written under, if any. */
  function LeafKey(mode: Mode, key: string): Option<string> {
    match mode
    case RemoveExt => Some(Stem(key))
    case SwapExt => if Extension(key).Some? then Some(Stem(key)) else None
    case CopyExt => Some(key)
  }

  /** The value a leaf is written with: unchanged, or `value + ext`. */
  function LeafValue(mode: Mode, key: string, value: Value): Value {
    match mode
    case RemoveExt => value
    case SwapExt => Str(ToStr(value) + ExtText(key))
    case CopyExt => Str(ToStr(value) + ExtText(key))
  }

  /** `rec(dir)`: `Object.keys(dir)` in order, a subtree (any `typeof 'object'`
      value) under its own key with `rec` applied, a leaf under `LeafKey` with
      `LeafValue`, all assigned to a fresh object; `Object.keys` of `null` throws,
      and the first error in key order is the one that propagates. */
  function Transform(mode: Mode, v: Value): Result<Value, string>
    decreases Size(v), 0
  {
    match OwnProps(v)
    case Err(e) => Err(e)
    case Ok(ps) =>
      OwnPropsSmaller(v);
      var us :- Entries(mode, ps);
      Ok(Obj(AssignAll([], us)))
  }

  /** The assignments `rec` performs for the properties `ps`, in order. */
  function Entries(mode: Mode, ps: seq<Prop<Value>>): Result<seq<Prop<Value>>, string>
    decreases Weight(ps), 1, |ps|
  {
    if ps == [] then Ok([])
    else
      var n := |ps| - 1;
      var init :- Entries(mode, ps[..n]);
      var p := ps[n];
      if IsObject(p.value) then
        WeightChild(ps, n);
        var t :- Transform(mode, p.value);
        Ok(init + [Prop(p.key, t)])
      else if LeafKey(mode, p.key).Some? then
        Ok(init + [Prop(LeafKey(mode, p.key).value, LeafValue(mode, p.key, p.value))])
      else
        Ok(init)
  }

  /** Where a property ends up: a subtree keeps its key. */
  function KeyOf(mode: Mode, p: Prop<Value>): Option<string> {
    if IsObject(p.value) then Some(p.key) else LeafKey(mode, p.key)
  }

  /** What a property is written with: a transformed subtree or a leaf's value. */
  function ValueOf(mode: Mode, p: Prop<Value>): Value
    requires IsObject(p.value) ==> Transform(mode, p.value).Ok?
  {
    if IsObject(p.value) then Transform(mode, p.value).value else LeafValue(mode, p.key, p.value)
  }

  /** The assignments fail exactly when a subtree fails, and then with the error of
      the first failing subtree. */
  lemma EntriesFail(mode: Mode, ps: seq<Prop<Value>>)
    ensures Entries(mode, ps).Ok? <==>
      forall i :: 0 <= i < |ps| && IsObject(ps[i].value) ==> Transform(mode, ps[i].value).Ok?
    ensures Entries(mode, ps).Err? ==>
      exists i :: && 0 <= i < |ps| && IsObject(ps[i].value)
                  && Transform(mode, ps[i].value) == Err(Entries(mode, ps).error)
                  && forall j :: 0 <= j < i && IsObject(ps[j].value) ==> Transform(mode, ps[j].value).Ok?
  {
    EntriesOk(mode, ps);
    if Entries(mode, ps).Err? {
      EntriesErr(mode, ps);
    }
  }

  /** One step of `rec`'s loop: the last property fails the assignments only when
      the ones before it succeed and it is a failing subtree. */
  lemma EntriesStep(mode: Mode, ps: seq<Prop<Value>>)
    requires ps != []
    ensures var init, p := ps[..|ps| - 1], ps[|ps| - 1];
      && (Entries(mode, ps).Ok? <==> Entries(mode, init).Ok? && (IsObject(p.value) ==> Transform(mode, p.value).Ok?))
      && (Entries(mode, ps).Err? ==>
            if Entries(mode, init).Err? then Entries(mode, ps).error == Entries(mode, init).error
            else IsObject(p.value) && Transform(mode, p.value) == Err(Entries(mode, ps).error))
  {
  }

  lemma {:induction false} EntriesOk(mode: Mode, ps: seq<Prop<Value>>)
    ensures Entries(mode, ps).Ok? <==>
      forall i :: 0 <= i < |ps| && IsObject(ps[i].value) ==> Transform(mode, ps[i].value).Ok?
    decreases |ps|
  {
    if ps != [] {
      var n := |ps| - 1;
      EntriesStep(mode, ps);
      EntriesOk(mode, ps[..n]);
      assert forall i :: 0 <= i < n ==> ps[..n][i] == ps[i];
    }
  }

  lemma {:induction false} EntriesErr(mode: Mode, ps: seq<Prop<Value>>)
    requires Entries(mode, ps).Err?
    ensures exists i :: && 0 <= i < |ps| && IsObject(ps[i].value)
                        && Transform(mode, ps[i].value) == Err(Entries(mode, ps).error)
                        && forall j :: 0 <= j < i && IsObject(ps[j].value) ==> Transform(mode, ps[j].value).Ok?
    decreases |ps|
  {
    var n := |ps| - 1;
    var init := ps[..n];
    EntriesStep(mode, ps);
    assert forall i :: 0 <= i < n ==> init[i] == ps[i];
    if Entries(mode, init).Err? {
      EntriesErr(mode, init);
      var i :| && 0 <= i < n && IsObject(init[i].value)
               && Transform(mode, init[i].value) == Err(Entries(mode, init).error)
               && forall j :: 0 <= j < i && IsObject(init[j].value) ==> Transform(mode, init[j].value).Ok?;
      assert IsObject(ps[i].value) && Transform(mode, ps[i].value) == Err(Entries(mode, ps).error);
    } else {
      EntriesOk(mode, init);
      assert IsObject(ps[n].value) && Transform(mode, ps[n].value) == Err(Entries(mode, ps).error);
    }
  }

  /** What the assignments write: every key some property maps to, and for each
      key the value of the last property mapping to it. */
  lemma EntriesImage(mode: Mode, ps: seq<Prop<Value>>, k: string)
    requires Entries(mode, ps).Ok?
    ensures forall i :: 0 <= i < |ps| && IsObject(ps[i].value) ==> Transform(mode, ps[i].value).Ok?
    ensures k in Keys(Entries(mode, ps).value) <==> exists i :: 0 <= i < |ps| && KeyOf(mode, ps[i]) == Some(k)
    ensures forall i :: 0 <= i < |ps| && KeyOf(mode, ps[i]) == Some(k) && LastMapped(mode, ps, i, k) ==>
      LastWrite(Entries(mode, ps).value, k) == Some(ValueOf(mode, ps[i]))
  {
    EntriesFail(mode, ps);
    EntriesKeys(mode, ps, k);
    forall i | 0 <= i < |ps| && KeyOf(mode, ps[i]) == Some(k) && LastMapped(mode, ps, i, k)
      ensures LastWrite(Entries(mode, ps).value, k) == Some(ValueOf(mode, ps[i]))
    {
      EntriesLast(mode, ps, i, k);
    }
  }

  /** The last assignment's step: `ps` is `init` and then `p`. */
  lemma EntriesSnoc(mode: Mode, ps: seq<Prop<Value>>)
    requires ps != [] && Entries(mode, ps).Ok?
    ensures Entries(mode, ps[..|ps| - 1]).Ok?
    ensures IsObject(ps[|ps| - 1].value) ==> Transform(mode, ps[|ps| - 1].value).Ok?
    ensures var us0, p := Entries(mode, ps[..|ps| - 1]).value, ps[|ps| - 1];
      Entries(mode, ps).value == if KeyOf(mode, p).Some? then us0 + [Prop(KeyOf(mode, p).value, ValueOf(mode, p))] else us0
  {
  }

  lemma {:induction false} EntriesKeys(mode: Mode, ps: seq<Prop<Value>>, k: string)
    requires Entries(mode, ps).Ok?
    ensures k in Keys(Entries(mode, ps).value) <==> exists i :: 0 <= i < |ps| && KeyOf(mode, ps[i]) == Some(k)
    decreases |ps|
  {
    if ps != [] {
      EntriesSnoc(mode, ps);
      EntriesKeys(mode, ps[..|ps| - 1], k);
      EntriesKeysStep(mode, ps, k);
    }
  }

  lemma EntriesKeysStep(mode: Mode, ps: seq<Prop<Value>>, k: string)
    requires ps != [] && Entries(mode, ps).Ok? && Entries(mode, ps[..|ps| - 1]).Ok?
    requires var init := ps[..|ps| - 1];
      k in Keys(Entries(mode, init).value) <==> exists i :: 0 <= i < |init| && KeyOf(mode, init[i]) == Some(k)
    ensures k in Keys(Entries(mode, ps).value) <==> exists i :: 0 <= i < |ps| && KeyOf(mode, ps[i]) == Some(k)
  {
    var n := |ps| - 1;
    var init, p := ps[..n], ps[n];
    EntriesSnoc(mode, ps);
    var us0, us := Entries(mode, init).value, Entries(mode, ps).value;
    assert Keys(us) == if KeyOf(mode, p).Some? then Keys(us0) + {KeyOf(mode, p).value} else Keys(us0) by {
      if KeyOf(mode, p).Some? {
        KeysSnoc(us0, Prop(KeyOf(mode, p).value, ValueOf(mode, p)));
      }
    }
    if k in Keys(us) {
      if k in Keys(us0) {
        var i :| 0 <= i < |init| && KeyOf(mode, init[i]) == Some(k);
        assert KeyOf(mode, ps[i]) == Some(k);
      } else {
        assert KeyOf(mode, ps[n]) == Some(k);
      }
    }
    if exists i :: 0 <= i < |ps| && KeyOf(mode, ps[i]) == Some(k) {
      var i :| 0 <= i < |ps| && KeyOf(mode, ps[i]) == Some(k);
      if i < n {
        assert init[i] == ps[i];
        assert k in Keys(us0);
      } else {
        assert i == n;
      }
      assert k in Keys(us);
    }
  }

  lemma {:induction false} EntriesLast(mode: Mode, ps: seq<Prop<Value>>, i: int, k: string)
    requires Entries(mode, ps).Ok?
    requires 0 <= i < |ps| && KeyOf(mode, ps[i]) == Some(k) && LastMapped(mode, ps, i, k)
    ensures IsObject(ps[i].value) ==> Transform(mode, ps[i].value).Ok?
    ensures LastWrite(Entries(mode, ps).value, k) == Some(ValueOf(mode, ps[i]))
    decreases |ps|, 1
  {
    if i < |ps| - 1 {
      EntriesLastEarlier(mode, ps, i, k);
    } else {
      EntriesLastHere(mode, ps, k);
    }
  }

  /** The last property, when it maps to `k`, is the one `k` reads. */
  lemma EntriesLastHere(mode: Mode, ps: seq<Prop<Value>>, k: string)
    requires Entries(mode, ps).Ok? && ps != [] && KeyOf(mode, ps[|ps| - 1]) == Some(k)
    ensures IsObject(ps[|ps| - 1].value) ==> Transform(mode, ps[|ps| - 1].value).Ok?
    ensures LastWrite(Entries(mode, ps).value, k) == Some(ValueOf(mode, ps[|ps| - 1]))
  {
    var n := |ps| - 1;
    EntriesSnoc(mode, ps);
    var q := Prop(k, ValueOf(mode, ps[n]));
    LastWriteOther(Entries(mode, ps[..n]).value, q, k);
  }

  /** An earlier property that no later one overrides is the one `k` reads. */
  lemma {:induction false} EntriesLastEarlier(mode: Mode, ps: seq<Prop<Value>>, i: int, k: string)
    requires Entries(mode, ps).Ok?
    requires 0 <= i < |ps| - 1 && KeyOf(mode, ps[i]) == Some(k) && LastMapped(mode, ps, i, k)
    ensures IsObject(ps[i].value) ==> Transform(mode, ps[i].value).Ok?
    ensures LastWrite(Entries(mode, ps).value, k) == Some(ValueOf(mode, ps[i]))
    decreases |ps|, 0
  {
    var n := |ps| - 1;
    var init, p := ps[..n], ps[n];
    EntriesSnoc(mode, ps);
    LastMappedInit(mode, ps, i, k);
    EntriesLast(mode, init, i, k);
    var us0 := Entries(mode, init).value;
    if KeyOf(mode, p).Some? {
      LastWriteOther(us0, Prop(KeyOf(mode, p).value, ValueOf(mode, p)), k);
    }
  }

  /** What holds of `ps` after position `i` holds of its prefix. */
  lemma LastMappedInit(mode: Mode, ps: seq<Prop<Value>>, i: int, k: string)
    requires 0 <= i < |ps| - 1 && LastMapped(mode, ps, i, k)
    ensures LastMapped(mode, ps[..|ps| - 1], i, k) && ps[..|ps| - 1][i] == ps[i]
    ensures KeyOf(mode, ps[|ps| - 1]) != Some(k)
  {
    assert forall j :: 0 <= j < |ps| - 1 ==> ps[..|ps| - 1][j] == ps[j];
  }

  /** One more assignment decides `k` only when it is to `k`. */
  lemma LastWriteOther<T>(us: seq<Prop<T>>, q: Prop<T>, k: string)
    ensures LastWrite(us + [q], k) == if q.key == k then Some(q.value) else LastWrite(us, k)
  {
    assert (us + [q])[..|us + [q]| - 1] == us;
  }

  /** No property after `ps[i]` maps to `k`. */
  predicate LastMapped(mode: Mode, ps: seq<Prop<Value>>, i: int, k: string) {
    forall j :: 0 <= j < |ps| && i < j ==> KeyOf(mode, ps[j]) != Some(k)
  }

  /** `rec` answers an object holding, for every key some own property maps to,
      the value of the last property mapping to it (later keys win on a stem
      collision); subtrees are transformed under their own keys. */
  lemma TransformImage(mode: Mode, v: Value, k: string)
    requires Transform(mode, v).Ok?
    ensures OwnProps(v).Ok? && Transform(mode, v).value.Obj?
    ensures var ps, qs := OwnProps(v).value, Transform(mode, v).value.props;
      && DistinctKeys(qs)
      && (forall i :: 0 <= i < |ps| && IsObject(ps[i].value) ==> Transform(mode, ps[i].value).Ok?)
      && (k in Keys(qs) <==> exists i :: 0 <= i < |ps| && KeyOf(mode, ps[i]) == Some(k))
      && (forall i :: 0 <= i < |ps| && KeyOf(mode, ps[i]) == Some(k) && LastMapped(mode, ps, i, k) ==>
            Get(qs, k) == Some(ValueOf(mode, ps[i])))
  {
    var ps := OwnProps(v).value;
    var us := Entries(mode, ps).value;
    EntriesImage(mode, ps, k);
    AssignAllGet([], us, k);
  }

  /** `rec` fails exactly on `null` (and `undefined`) and on a tree with a `null`
      subtree somewhere, with `Object.keys`' TypeError. */
  lemma {:induction false} TransformFails(mode: Mode, v: Value)
    ensures Transform(mode, v).Err? <==>
      || OwnProps(v).Err?
      || exists i :: 0 <= i < |OwnProps(v).value| && IsObject(OwnProps(v).value[i].value) &&
                     Transform(mode, OwnProps(v).value[i].value).Err?
    ensures Transform(mode, v).Err? ==> Transform(mode, v).error == NOT_AN_OBJECT
    decreases Size(v), 0
  {
    if OwnProps(v).Ok? {
      var ps := OwnProps(v).value;
      OwnPropsSmaller(v);
      EntriesFail(mode, ps);
      if Entries(mode, ps).Err? {
        var i :| 0 <= i < |ps| && IsObject(ps[i].value) && Transform(mode, ps[i].value) == Err(Entries(mode, ps).error);
        WeightChild(ps, i);
        TransformFails(mode, ps[i].value);
      }
    }
  }

  /** `removeExtensions` writes a leaf's value unchanged under its stem unless a
      later key has the same stem. */
  lemma RemoveKeepsValues(v: Value, i: int)
    requires Transform(RemoveExt, v).Ok?
    requires OwnProps(v).Ok? && 0 <= i < |OwnProps(v).value|
    requires !IsObject(OwnProps(v).value[i].value)
    requires LastMapped(RemoveExt, OwnProps(v).value, i, Stem(OwnProps(v).value[i].key))
    ensures Get(Transform(RemoveExt, v).value.props, Stem(OwnProps(v).value[i].key)) == Some(OwnProps(v).value[i].value)
  {
    TransformImage(RemoveExt, v, Stem(OwnProps(v).value[i].key));
  }

  /** `swapExtensions` keeps the subtree keys and the stems of the leaves that have
      an extension, and nothing else: an extensionless leaf is dropped. */
  lemma SwapKeys(v: Value, k: string)
    requires Transform(SwapExt, v).Ok?
    ensures var ps := OwnProps(v).value;
      k in Keys(Transform(SwapExt, v).value.props) <==>
        exists i :: 0 <= i < |ps| &&
          ((IsObject(ps[i].value) && ps[i].key == k) ||
           (!IsObject(ps[i].value) && Extension(ps[i].key).Some? && Stem(ps[i].key) == k))
  {
    TransformImage(SwapExt, v, k);
    var ps := OwnProps(v).value;
    assert forall i :: 0 <= i < |ps| ==> (KeyOf(SwapExt, ps[i]) == Some(k) <==>
      ((IsObject(ps[i].value) && ps[i].key == k) ||
       (!IsObject(ps[i].value) && Extension(ps[i].key).Some? && Stem(ps[i].key) == k)));
  }

  /** `copyExtensions` writes one assignment per property, under the same key. */
  lemma {:induction false} CopyEntries(ps: seq<Prop<Value>>)
    requires Entries(CopyExt, ps).Ok?
    ensures forall i :: 0 <= i < |ps| && IsObject(ps[i].value) ==> Transform(CopyExt, ps[i].value).Ok?
    ensures var us := Entries(CopyExt, ps).value;
      |us| == |ps| && forall i :: 0 <= i < |ps| ==> us[i] == Prop(ps[i].key, ValueOf(CopyExt, ps[i]))
    decreases |ps|
  {
    EntriesOk(CopyExt, ps);
    if ps != [] {
      var n := |ps| - 1;
      EntriesSnoc(CopyExt, ps);
      CopyEntries(ps[..n]);
      CopiedSnoc(ps, Entries(CopyExt, ps[..n]).value);
    }
  }

  /** The copied entries of `ps` are those of its prefix and then its last one. */
  lemma CopiedSnoc(ps: seq<Prop<Value>>, us0: seq<Prop<Value>>)
    requires ps != []
    requires forall i :: 0 <= i < |ps| && IsObject(ps[i].value) ==> Transform(CopyExt, ps[i].value).Ok?
    requires |us0| == |ps| - 1
    requires forall i :: 0 <= i < |ps| - 1 ==> us0[i] == Prop(ps[..|ps| - 1][i].key, ValueOf(CopyExt, ps[..|ps| - 1][i]))
    ensures var us := us0 + [Prop(ps[|ps| - 1].key, ValueOf(CopyExt, ps[|ps| - 1]))];
      forall i :: 0 <= i < |ps| ==> us[i] == Prop(ps[i].key, ValueOf(CopyExt, ps[i]))
  {
    assert forall i :: 0 <= i < |ps| - 1 ==> ps[..|ps| - 1][i] == ps[i];
  }

  /** On an object (whose keys are distinct), `copyExtensions` keeps every key in
      its place and appends the key's extension to every leaf. */
  lemma CopyKeepsKeys(v: Value)
    requires Transform(CopyExt, v).Ok?
    requires DistinctKeys(OwnProps(v).value)
    ensures var ps, qs := OwnProps(v).value, Transform(CopyExt, v).value.props;
      && |qs| == |ps|
      && (forall i :: 0 <= i < |ps| && IsObject(ps[i].value) ==> Transform(CopyExt, ps[i].value).Ok?)
      && forall i :: 0 <= i < |ps| ==> qs[i].key == ps[i].key && qs[i].value == ValueOf(CopyExt, ps[i])
  {
    var ps := OwnProps(v).value;
    var us := Entries(CopyExt, ps).value;
    CopyEntries(ps);
    assert DistinctKeys(us);
    AssignAllFresh(us);
  }

  /** With distinct keys, the last write of a key is its only write. */
  lemma {:induction false} LastWriteDistinct(us: seq<Prop<Value>>, i: int)
    requires DistinctKeys(us) && 0 <= i < |us|
    ensures LastWrite(us, us[i].key) == Some(us[i].value)
    decreases |us|
  {
    var n := |us| - 1;
    if i < n {
      LastWriteDistinct(us[..n], i);
    }
  }

  /** Every level of the tree is an object or array with distinct keys, and every
      leaf key has an extension. */
  ghost predicate Extended(v: Value)
    decreases Size(v), 0
  {
    && OwnProps(v).Ok?
    && DistinctKeys(OwnProps(v).value)
    && (OwnPropsSmaller(v); ExtendedProps(OwnProps(v).value))
  }

  ghost predicate ExtendedProps(ps: seq<Prop<Value>>)
    decreases Weight(ps), 1, |ps|
  {
    ps != [] ==>
      var n := |ps| - 1;
      && ExtendedProps(ps[..n])
      && if IsObject(ps[n].value) then (WeightChild(ps, n); Extended(ps[n].value)) else Extension(ps[n].key).Some?
  }

  /** When every leaf key has an extension, swapping extensions is copying them and
      then removing them: both write `value + ext` under the stem. */
  lemma {:induction false} SwapIsCopyThenRemove(v: Value)
    requires Extended(v)
    ensures Transform(CopyExt, v).Ok?
    ensures Transform(SwapExt, v) == Transform(RemoveExt, Transform(CopyExt, v).value)
    decreases Size(v), 0
  {
    var ps := OwnProps(v).value;
    OwnPropsSmaller(v);
    EntriesSwapCopy(ps);
    var us := Entries(CopyExt, ps).value;
    CopyEntries(ps);
    assert DistinctKeys(us);
    AssignAllFresh(us);
  }

  lemma {:induction false} EntriesSwapCopy(ps: seq<Prop<Value>>)
    requires ExtendedProps(ps)
    ensures Entries(CopyExt, ps).Ok?
    ensures Entries(SwapExt, ps) == Entries(RemoveExt, Entries(CopyExt, ps).value)
    decreases Weight(ps), 1, |ps|
  {
    if ps != [] {
      var n := |ps| - 1;
      EntriesSwapCopy(ps[..n]);
      if IsObject(ps[n].value) {
        WeightChild(ps, n);
        SwapIsCopyThenRemove(ps[n].value);
      }
      if IsObject(ps[n].value) {
        SwapCopySubtree(ps);
      } else {
        SwapCopyLeaf(ps);
      }
    }
  }

  /** A last subtree swaps as it is copied and then stripped, given that the
      properties before it do and that its own subtree does. */
  lemma SwapCopySubtree(ps: seq<Prop<Value>>)
    requires ps != [] && IsObject(ps[|ps| - 1].value)
    requires var init := ps[..|ps| - 1];
      Entries(CopyExt, init).Ok? && Entries(SwapExt, init) == Entries(RemoveExt, Entries(CopyExt, init).value)
    requires var p := ps[|ps| - 1];
      Transform(CopyExt, p.value).Ok? && Transform(SwapExt, p.value) == Transform(RemoveExt, Transform(CopyExt, p.value).value)
    ensures Entries(CopyExt, ps).Ok?
    ensures Entries(SwapExt, ps) == Entries(RemoveExt, Entries(CopyExt, ps).value)
  {
    var n := |ps| - 1;
    var cs0 := Entries(CopyExt, ps[..n]).value;
    var p := ps[n];
    var cs := cs0 + [Prop(p.key, Transform(CopyExt, p.value).value)];
    assert Entries(CopyExt, ps) == Ok(cs);
    assert cs[..|cs| - 1] == cs0;
  }

  /** A last leaf with an extension swaps as it is copied and then stripped, given
      that the properties before it do. */
  lemma SwapCopyLeaf(ps: seq<Prop<Value>>)
    requires ps != [] && !IsObject(ps[|ps| - 1].value) && Extension(ps[|ps| - 1].key).Some?
    requires var init := ps[..|ps| - 1];
      Entries(CopyExt, init).Ok? && Entries(SwapExt, init) == Entries(RemoveExt, Entries(CopyExt, init).value)
    ensures Entries(CopyExt, ps).Ok?
    ensures Entries(SwapExt, ps) == Entries(RemoveExt, Entries(CopyExt, ps).value)
  {
    var n := |ps| - 1;
    var cs0 := Entries(CopyExt, ps[..n]).value;
    var p := ps[n];
    var cs := cs0 + [Prop(p.key, Str(ToStr(p.value) + ExtText(p.key)))];
    assert Entries(CopyExt, ps) == Ok(cs);
    assert cs[..|cs| - 1] == cs0;
  }

  // ---------------------------------------------------------------------------
  // `mergeJSON` and `concat`.

  /** The properties `Object.assign` copies from one source: none from `null` and
      `undefined`, the own enumerable ones (indices for strings and arrays) from
      anything else. */
  function SourceProps(b: Value): seq<Prop<Value>> {
    if b.Null? || b.Undefined? then [] else OwnProps(b).value
  }

  /** Each block's own properties, in argument order. */
  function Parts(blocks: seq<Value>): (parts: seq<seq<Prop<Value>>>)
    ensures |parts| == |blocks| && forall j :: 0 <= j < |blocks| ==> parts[j] == SourceProps(blocks[j])
  {
    seq(|blocks|, j requires 0 <= j < |blocks| => SourceProps(blocks[j]))
  }

  /** The property lists one after another. */
  function Flat<T>(parts: seq<seq<Prop<T>>>): seq<Prop<T>> {
    if parts == [] then [] else Flat(parts[..|parts| - 1]) + parts[|parts| - 1]
  }

  /** All the assignments of `Object.assign({}, ...blocks)`, in order. */
  function Spread(blocks: seq<Value>): seq<Prop<Value>> {
    Flat(Parts(blocks))
  }

  /** `Object.assign({}, ...blocks)` */
  function Merge(blocks: seq<Value>): Value {
    Obj(AssignAll([], Spread(blocks)))
  }

  lemma {:induction false} LastWriteAppend<T>(a: seq<Prop<T>>, b: seq<Prop<T>>, k: string)
    ensures LastWrite(a + b, k) == if k in Keys(b) then LastWrite(b, k) else LastWrite(a, k)
    decreases |b|
  {
    if b != [] {
      var n := |b| - 1;
      assert (a + b)[..|a + b| - 1] == a + b[..n];
      LastWriteAppend(a, b[..n], k);
      KeysSnoc(b[..n], b[n]);
      assert b == b[..n] + [b[n]];
    } else {
      assert a + b == a;
    }
  }

  lemma KeysAppend<T>(a: seq<Prop<T>>, b: seq<Prop<T>>, k: string)
    ensures k in Keys(a + b) <==> k in Keys(a) || k in Keys(b)
  {
    if k in Keys(a + b) {
      var j :| 0 <= j < |a + b| && (a + b)[j].key == k;
      if j >= |a| { assert b[j - |a|].key == k; }
    }
    if k in Keys(a) { var j :| 0 <= j < |a| && a[j].key == k; assert (a + b)[j].key == k; }
    if k in Keys(b) { var j :| 0 <= j < |b| && b[j].key == k; assert (a + b)[|a| + j].key == k; }
  }

  lemma {:induction false} FlatKeys<T>(parts: seq<seq<Prop<T>>>, k: string)
    ensures k in Keys(Flat(parts)) <==> exists i :: 0 <= i < |parts| && k in Keys(parts[i])
    decreases |parts|
  {
    if parts != [] {
      var n := |parts| - 1;
      FlatKeys(parts[..n], k);
      KeysAppend(Flat(parts[..n]), parts[n], k);
      assert forall i :: 0 <= i < n ==> parts[..n][i] == parts[i];
    }
  }

  lemma {:induction false} FlatLast<T>(parts: seq<seq<Prop<T>>>, i: int, k: string)
    requires 0 <= i < |parts| && k in Keys(parts[i])
    requires forall j :: i < j < |parts| ==> k !in Keys(parts[j])
    ensures LastWrite(Flat(parts), k) == LastWrite(parts[i], k)
    decreases |parts|
  {
    var n := |parts| - 1;
    LastWriteAppend(Flat(parts[..n]), parts[n], k);
    if i < n {
      assert forall j :: i < j < n ==> parts[..n][j] == parts[j];
      FlatLast(parts[..n], i, k);
    }
  }

  /** `mergeJSON`: the merged object has every key of every block, and a key takes
      its value from the last block that has it. */
  lemma MergeLaterWins(blocks: seq<Value>, i: int, k: string)
    requires 0 <= i < |blocks| && k in Keys(SourceProps(blocks[i]))
    requires DistinctKeys(SourceProps(blocks[i]))
    requires forall j :: i < j < |blocks| ==> k !in Keys(SourceProps(blocks[j]))
    ensures k in Keys(Merge(blocks).props)
    ensures Get(Merge(blocks).props, k) == Get(SourceProps(blocks[i]), k)
  {
    var parts := Parts(blocks);
    AssignAllGet([], Spread(blocks), k);
    FlatKeys(parts, k);
    FlatLast(parts, i, k);
    var b := SourceProps(blocks[i]);
    LastWriteDistinct(b, IndexOf(b, k));
  }

  /** `Promise.all` over the retrievals: the values in order, or the first error. */
  function Gathered<T>(rs: seq<Result<T, string>>): (r: Result<seq<T>, string>)
    ensures r.Ok? <==> forall i :: 0 <= i < |rs| ==> rs[i].Ok?
    ensures r.Ok? ==> |r.value| == |rs| && forall i :: 0 <= i < |rs| ==> r.value[i] == rs[i].value
    ensures r.Err? ==> exists i :: 0 <= i < |rs| && rs[i] == Err(r.error) && forall j :: 0 <= j < i ==> rs[j].Ok?
  {
    if rs == [] then Ok([])
    else
      var n := |rs| - 1;
      var init := Gathered(rs[..n]);
      assert forall i :: 0 <= i < n ==> rs[..n][i] == rs[i];
      if init.Err? then Err(init.error)
      else if rs[n].Err? then Err(rs[n].error)
      else Ok(init.value + [rs[n].value])
  }

  /** `mergeJSON(...hashes)`: the object it stores, given what `retrieveJSON`
      answered for each hash. */
  function MergeTask(retrieved: seq<Result<Value, string>>): Result<Value, string> {
    var blocks :- Gathered(retrieved);
    Ok(Merge(blocks))
  }

  /** `Buffer.concat(blocks)` */
  function Concat(blocks: seq<seq<byte>>): seq<byte> {
    if blocks == [] then [] else Concat(blocks[..|blocks| - 1]) + blocks[|blocks| - 1]
  }

  /** `concat(...hashes)`: the bytes it stores, given what `retrieveContent`
      answered for each hash. */
  function ConcatTask(retrieved: seq<Result<seq<byte>, string>>): Result<seq<byte>, string> {
    var blocks :- Gathered(retrieved);
    Ok(Concat(blocks))
  }

  /** The concatenation holds each block in argument order: block `i` starts where
      the blocks before it end. */
  lemma {:induction false} ConcatInOrder(blocks: seq<seq<byte>>, i: int)
    requires 0 <= i < |blocks|
    ensures |Concat(blocks[..i])| + |blocks[i]| <= |Concat(blocks)|
    ensures Concat(blocks)[|Concat(blocks[..i])|..|Concat(blocks[..i])| + |blocks[i]|] == blocks[i]
    decreases |blocks|
  {
    var n := |blocks| - 1;
    assert blocks[..n] == blocks[..|blocks| - 1];
    if i < n {
      ConcatInOrder(blocks[..n], i);
      assert blocks[..n][..i] == blocks[..i];
      assert blocks[..n][i] == blocks[i];
      var c := Concat(blocks[..n]);
      assert Concat(blocks) == c + blocks[n];
      assert Concat(blocks)[..|c|] == c;
    } else {
      assert blocks[..i] == blocks[..n];
    }
  }
}
