/** The build-task memoizer: a permanent map from a task invocation's token to its
    result, and a gate per token while one invocation is running. */
module BuildCaching {
  import opened Wrappers
  import opened Json
  import opened Foreign

  /** `token(name, params)`: the SHA-1 hex of `JSON.stringify([name, params])`. */
  function Token(ff: Foreign, name: string, params: seq<Value>): string {
    ff.sha1(ff.jsonStringify(Arr([Str(name), Arr(params)])))
  }

  /** The memoizer's state: `cache` (token to result) and `mutex` (gated tokens). */
  datatype Memo = Memo(results: map<string, string>, gates: set<string>)

  /** The way `store` goes for a token. */
  datatype Path =
    | Hit     // a non-empty result is memoized: return it
    | Waited  // another invocation holds the gate: wait for it, then read the memo
    | Ran     // open the gate and run the build task

  function PathOf(m: Memo, t: string): Path {
    if t in m.results && m.results[t] != "" then Hit
    else if t in m.gates then Waited
    else Ran
  }

  /** What `retrieve` returns: the memoized result, else the empty string. */
  function Recall(m: Memo, t: string): string {
    if t in m.results then m.results[t] else ""
  }

  /** The state after `store(t)`: `outcome` is what the build task returns or throws when
      this invocation runs it; `released` is what the invocation holding the gate
      memoized before releasing it (`None` if it failed). */
  function StoreState(m: Memo, t: string, outcome: Result<string, string>, released: Option<string>): Memo {
    match PathOf(m, t)
    case Hit => m
    case Waited => Memo(if released.Some? then m.results[t := released.value] else m.results, m.gates - {t})
    case Ran => Memo(if outcome.Ok? then m.results[t := outcome.value] else m.results, m.gates)
  }

  /** What `store(t)` resolves to: `Ok(None)` is `undefined`. */
  function StoreAnswer(m: Memo, t: string, outcome: Result<string, string>, released: Option<string>): Result<Option<string>, string> {
    match PathOf(m, t)
    case Hit => Ok(Some(m.results[t]))
    case Waited => Ok(if released.Some? then Some(released.value) else if t in m.results then Some(m.results[t]) else None)
    case Ran => if outcome.Ok? then Ok(Some(outcome.value)) else Err(outcome.error)
  }

  /** No path deletes or changes a memoized result other than the token's own, and
      only a run or a release writes one. */
  lemma StoreKeepsResults(m: Memo, t: string, outcome: Result<string, string>, released: Option<string>)
    ensures var m' := StoreState(m, t, outcome, released);
      && m.results.Keys <= m'.results.Keys
      && (forall k :: k in m.results && k != t ==> m'.results[k] == m.results[k])
      && (PathOf(m, t) == Hit ==> m' == m)
  {
  }

  /** A task that throws leaves the memo as it was and the error is rethrown. */
  lemma StoreFailureWritesNothing(m: Memo, t: string, e: string, released: Option<string>)
    requires PathOf(m, t) == Ran
    ensures StoreState(m, t, Err(e), released).results == m.results
    ensures StoreAnswer(m, t, Err(e), released) == Err(e)
  {
  }

  /** Whichever way a gated `store` ends, the token's gate is gone and no other gate
      changed. */
  lemma StoreReleasesGate(m: Memo, t: string, outcome: Result<string, string>, released: Option<string>)
    requires t !in m.gates || PathOf(m, t) != Hit
    ensures StoreState(m, t, outcome, released).gates == m.gates - {t}
  {
  }

  /** The build task runs at most once per token: after a run that produced a non-empty
      result, `store` and `retrieve` of the same token answer it without running
      anything. */
  lemma {:induction false} StoreRunsOnce(m: Memo, t: string, v: string, released: Option<string>,
                                           outcome2: Result<string, string>, released2: Option<string>)
    requires PathOf(m, t) == Ran && v != ""
    ensures var m' := StoreState(m, t, Ok(v), released);
      && PathOf(m', t) == Hit
      && StoreAnswer(m', t, outcome2, released2) == Ok(Some(v))
      && StoreState(m', t, outcome2, released2) == m'
      && Recall(m', t) == v
  {
    var m' := StoreState(m, t, Ok(v), released);
    assert m'.results[t] == v;
  }

  /** A waiter answers what the memo holds once the gate is released: the executor's
      result, or `undefined` (or an earlier empty result) when the executor failed. */
  lemma WaiterReadsMemo(m: Memo, t: string, outcome: Result<string, string>, released: Option<string>)
    requires PathOf(m, t) == Waited
    ensures var m' := StoreState(m, t, outcome, released);
      StoreAnswer(m, t, outcome, released) == Ok(if t in m'.results then Some(m'.results[t]) else None)
  {
  }

  class BuildCache {
    /** `cache`: token to result; entries are never deleted. */
    var results: map<string, string>
    /** `mutex`: the tokens whose task is running. */
    var gates: set<string>

    function State(): Memo
      reads this
    {
      Memo(results, gates)
    }

    constructor()
      ensures results == map[] && gates == {}
    {
      results := map[];
      gates := {};
    }

    /** `retrieve(name, params)`: the memoized result, or `''`; nothing changes. */
    method Retrieve(ff: Foreign, name: string, params: seq<Value>) returns (r: string)
      ensures r == Recall(State(), Token(ff, name, params))
    {
      var token := Token(ff, name, params);
      if token in results {
        return results[token];
      }
      return "";
    }

    /** `store(name, params, method)`. `outcome` is what `method()` returns or
        throws if this invocation runs it (`ran` says whether it did); `released` is
        what the invocation holding the gate memoized, if this one has to wait. */
    method Store(ff: Foreign, name: string, params: seq<Value>, outcome: Result<string, string>, released: Option<string>)
      returns (r: Result<Option<string>, string>, ghost ran: bool)
      modifies this
      ensures State() == StoreState(old(State()), Token(ff, name, params), outcome, released)
      ensures r == StoreAnswer(old(State()), Token(ff, name, params), outcome, released)
      ensures ran <==> PathOf(old(State()), Token(ff, name, params)) == Ran
    {
      var token := Token(ff, name, params);
      if token in results && results[token] != "" {
        return Ok(Some(results[token])), false;
      }
      if token in gates {
        // Suspended until the running invocation releases the gate: it deletes the
        // gate, after memoizing its result if it succeeded.
        if released.Some? {
          results := results[token := released.value];
        }
        gates := gates - {token};
        return Ok(if token in results then Some(results[token]) else None), false;
      }
      gates := gates + {token};
      ran := true;
      if outcome.Ok? {
        results := results[token := outcome.value];
        r := Ok(Some(outcome.value));
      } else {
        r := Err(outcome.error);
      }
      gates := gates - {token};
    }
  }
}
