/** The build system: content and JSON access through the caching content server
    with the tool's error checks, and `build`, which answers a memoized result,
    refuses an unknown task, or runs the build task through the memoizer. */
module BuildSystems {
  import opened Wrappers
  import opened Bytes
  import opened Json
  import opened Foreign
  import opened LruSpec
  import opened ContentServer
  import opened BuildCaching

  // ---------------------------------------------------------------------------
  // The identifier strip of `retrieveContent`.

  /** The characters JavaScript's `.` does not match. */
  predicate IsLineTerminator(c: char) {
    c == '\n' || c == '\r' || c == '\U{2028}' || c == '\U{2029}'
  }

  function HasLineTerminator(s: string): (b: bool)
    ensures b <==> exists i :: 0 <= i < |s| && IsLineTerminator(s[i])
  {
    if s == [] then false
    else
      var b := IsLineTerminator(s[0]) || HasLineTerminator(s[1..]);
      assert (exists i :: 0 <= i < |s| && IsLineTerminator(s[i])) <==> IsLineTerminator(s[0]) || exists i :: 0 <= i < |s[1..]| && IsLineTerminator(s[1..][i]) by {
        forall i | 0 < i < |s| ensures s[i] == s[1..][i - 1] { }
      }
      b
  }

  /** The position of the first `.`, or the length when there is none. */
  function FirstDot(s: string): (i: nat)
    ensures i <= |s| && (i < |s| ==> s[i] == '.')
    ensures forall j :: 0 <= j < i ==> s[j] != '.'
  {
    if s == [] then 0 else if s[0] == '.' then 0 else 1 + FirstDot(s[1..])
  }

  /** What `hash.match(/^(.*?)(\..*?)?$/)![1]` throws when nothing matches. */
  const NO_MATCH := "TypeError: Cannot read properties of null (reading '1')"

  /** `hash.match(/^(.*?)(\..*?)?$/)![1]`: the identifier before the first `.`. The
      pattern cannot match across a line terminator, so such a hash throws. */
  function PureHash(hash: string): (r: Result<string, string>)
    ensures r.Err? <==> HasLineTerminator(hash)
    ensures r.Ok? ==> r.value <= hash && '.' !in r.value && (|r.value| < |hash| ==> hash[|r.value|] == '.')
  {
    if HasLineTerminator(hash) then Err(NO_MATCH) else Ok(hash[..FirstDot(hash)])
  }

  /** The strip, characterized both ways: `p` is what it yields exactly when `p` has
      no dot and `hash` is `p` or `p` followed by a `.`-led suffix. */
  lemma {:induction false} PureHashSplits(hash: string, p: string)
    requires !HasLineTerminator(hash)
    ensures PureHash(hash) == Ok(p) <==>
      && (forall j :: 0 <= j < |p| ==> p[j] != '.')
      && |p| <= |hash| && hash[..|p|] == p
      && (|p| == |hash| || hash[|p|] == '.')
  {
    var i := FirstDot(hash);
    if (forall j :: 0 <= j < |p| ==> p[j] != '.') && |p| <= |hash| && hash[..|p|] == p && (|p| == |hash| || hash[|p|] == '.') {
      assert forall j :: 0 <= j < |p| ==> hash[j] == p[j];
    }
  }

  /** An identifier without a dot is kept whole, and stripping twice is stripping once. */
  lemma PureHashIdempotent(hash: string)
    requires PureHash(hash).Ok?
    ensures var p := PureHash(hash).value; PureHash(p) == Ok(p)
  {
    var p := PureHash(hash).value;
    assert !HasLineTerminator(p) by {
      forall j | 0 <= j < |p| ensures !IsLineTerminator(p[j]) { assert p[j] == hash[j]; }
    }
    PureHashSplits(p, p);
  }

  /** Adding an extension to an identifier does not change what is looked up. */
  lemma PureHashIgnoresExtension(hash: string, ext: string)
    requires !HasLineTerminator(hash + "." + ext)
    ensures PureHash(hash + "." + ext) == PureHash(hash)
  {
    var s := hash + "." + ext;
    assert !HasLineTerminator(hash) by {
      forall j | 0 <= j < |hash| ensures !IsLineTerminator(hash[j]) { assert hash[j] == s[j]; }
    }
    var p := PureHash(hash).value;
    PureHashSplits(hash, p);
    assert s[..|p|] == p;
    PureHashSplits(s, p);
  }

  // ---------------------------------------------------------------------------
  // Error checks.

  /** `retrieveJSON`'s parse of retrieved bytes: a parse failure is wrapped in an
      error naming the hash. */
  function ParsedJson(ff: Foreign, hash: string, bytes: seq<byte>): (r: Result<Value, string>)
    ensures ff.parse(ff.utf8Decode(bytes)).Ok? ==> r == ff.parse(ff.utf8Decode(bytes))
    ensures ff.parse(ff.utf8Decode(bytes)).Err? ==>
      r == Err("could not parse json for hash: " + hash + ". " + ff.parse(ff.utf8Decode(bytes)).error)
  {
    match ff.parse(ff.utf8Decode(bytes))
    case Ok(v) => Ok(v)
    case Err(m) => Err("could not parse json for hash: " + hash + ". " + m)
  }

  /** `storeContent`'s check of the key the server answers: an empty key is an error,
      any other answer passes through. */
  function Checked(answer: Result<string, string>): (r: Result<string, string>)
    ensures r.Ok? ==> r == answer && r.value != ""
    ensures answer.Err? ==> r == answer
    ensures answer == Ok("") ==> r == Err("error saving data")
  {
    if answer.Ok? && answer.value == "" then Err("error saving data") else answer
  }

  // ---------------------------------------------------------------------------
  // The build-task registry.

  /** The tasks `task-index` registers: the exports of the two task modules. */
  const TASKS: set<string> := {"concat", "removeExtensions", "swapExtensions", "copyExtensions", "mergeJSON", "buildResource"}

  /** The members every object literal inherits from `Object.prototype`. */
  const OBJECT_PROTOTYPE: set<string> := {
    "constructor", "hasOwnProperty", "isPrototypeOf", "propertyIsEnumerable", "toLocaleString",
    "toString", "valueOf", "__defineGetter__", "__defineSetter__", "__lookupGetter__",
    "__lookupSetter__", "__proto__"}

  /** `if (!task)` as written: `this.tasks[name]` on an object literal also finds
      the inherited members. */
  predicate RegistryFindsAsWritten(name: string) {
    name in TASKS || name in OBJECT_PROTOTYPE
  }

  /** An inherited name passes the as-written check without being a task. */
  lemma InheritedNamePassesCheck()
    ensures RegistryFindsAsWritten("toString") && "toString" !in TASKS
  {
  }

  /** The intended check: only registered tasks are found. */
  predicate IsTask(name: string) {
    name in TASKS
  }

  class BuildSystem {
    const ff: Foreign
    const cache: BuildCache
    const server: CachingContentServer

    ghost predicate Valid()
      reads server.cache, server.cache.lru, server.cache.arena
    {
      server.Valid()
    }

    constructor(ff: Foreign, cache: BuildCache, server: CachingContentServer)
      requires server.Valid()
      ensures Valid() && this.ff == ff && this.cache == cache && this.server == server
    {
      this.ff := ff;
      this.cache := cache;
      this.server := server;
    }

    /** `retrieveContent(hash)`: fetch the identifier before the first `.` and fail,
        naming the full hash, when the server has nothing. `reply` and `others` are
        the backend's answer and the requests that run meanwhile, as for
        `CachingContentServer.Retrieve`. */
    method RetrieveContent(hash: string, reply: Option<seq<byte>>, others: seq<Interleaved>)
      returns (r: Result<array<byte>, string>)
      requires Valid()
      modifies server, server.cache, server.cache.lru, server.cache.arena
      ensures Valid()
      ensures PureHash(hash).Err? ==>
        r == Err(NO_MATCH) && server.gates == old(server.gates) && server.cache.View() == old(server.cache.View())
      ensures PureHash(hash).Ok? && r.Err? ==> r.error == "error retrieving hash " + hash
      ensures PureHash(hash).Ok? && old(Lookup(server.cache.View(), PureHash(hash).value)).Some? ==>
        r == Ok(old(Lookup(server.cache.View(), PureHash(hash).value)).value)
      ensures PureHash(hash).Ok? && old(Lookup(server.cache.View(), PureHash(hash).value)).None? && others == [] ==>
        (r.Ok? <==> reply.Some?) && (r.Ok? ==> r.value[..] == reply.value)
    {
      var pure := PureHash(hash);
      if pure.Err? {
        return Err(pure.error);
      }
      var data, asked := server.Retrieve(pure.value, reply, others);
      if data.None? {
        return Err("error retrieving hash " + hash);
      }
      return Ok(data.value);
    }

    /** `retrieveJSON(hash)`: the retrieved bytes as UTF-8 text, parsed. */
    method RetrieveJSON(hash: string, reply: Option<seq<byte>>, others: seq<Interleaved>)
      returns (r: Result<Value, string>, ghost content: Result<seq<byte>, string>)
      requires Valid()
      modifies server, server.cache, server.cache.lru, server.cache.arena
      ensures Valid()
      ensures content.Err? ==> r == Err(content.error) && (content.error == NO_MATCH || content.error == "error retrieving hash " + hash)
      ensures content.Ok? ==> r == ParsedJson(ff, hash, content.value)
      ensures PureHash(hash).Ok? && old(Lookup(server.cache.View(), PureHash(hash).value)).Some? ==>
        content == Ok(old(Lookup(server.cache.View(), PureHash(hash).value)).value[..])
      ensures PureHash(hash).Ok? && old(Lookup(server.cache.View(), PureHash(hash).value)).None? && others == [] ==>
        (content.Ok? <==> reply.Some?) && (content.Ok? ==> content.value == reply.value)
    {
      var data := RetrieveContent(hash, reply, others);
      if data.Err? {
        return Err(data.error), Err(data.error);
      }
      content := Ok(data.value[..]);
      r := ParsedJson(ff, hash, data.value[..]);
    }

    /** `storeContent(data)`: store through the server and refuse an empty key.
        `answer` is what the server's `store` returned, and `sent` the buffer it
        handed to the backend, if any. */
    method StoreContent(data: array<byte>, reply: Result<string, string>, others: seq<Interleaved>)
      returns (r: Result<string, string>, ghost answer: Result<string, string>, ghost sent: Option<array<byte>>)
      requires Valid()
      modifies server, server.cache, server.cache.lru, server.cache.arena
      ensures Valid() && r == Checked(answer)
      ensures sent.Some? ==> answer == reply && sent.value[..] == data[..]
      ensures !server.Cacheable(data.Length) ==> answer == reply && sent == Some(data)
      ensures server.Cacheable(data.Length) && old(Lookup(server.cache.View(), IpfsHash(ff, data[..]))).Some? ==>
        answer == Ok(IpfsHash(ff, data[..])) && sent.None?
      ensures server.Cacheable(data.Length) && old(Lookup(server.cache.View(), IpfsHash(ff, data[..]))).None? && others == [] ==>
        && answer == reply && sent.Some?
        && (reply.Ok? && old(Lookup(server.cache.View(), reply.value)).None? ==> Lookup(server.cache.View(), reply.value) == sent)
    {
      var stored;
      stored, sent := server.Store(ff, data, reply, others);
      answer := stored;
      r := Checked(stored);
    }

    /** `storeJSON(data)`: serialize, refuse an empty serialization, and store the
        UTF-8 bytes. */
    method StoreJSON(data: Value, reply: Result<string, string>, others: seq<Interleaved>)
      returns (r: Result<string, string>, ghost answer: Result<string, string>, ghost sent: Option<array<byte>>)
      requires Valid()
      modifies server, server.cache, server.cache.lru, server.cache.arena
      ensures Valid()
      ensures ff.stringify(data) == "" ==>
        r == Err("invalid json") && sent.None?
        && server.gates == old(server.gates) && server.cache.View() == old(server.cache.View())
      ensures ff.stringify(data) != "" ==> r == Checked(answer)
      ensures sent.Some? ==> answer == reply && sent.value[..] == ff.utf8Encode(ff.stringify(data))
      ensures var bytes := ff.utf8Encode(ff.stringify(data));
        ff.stringify(data) != "" && !server.Cacheable(|bytes|) ==> answer == reply && sent.Some?
      ensures var bytes := ff.utf8Encode(ff.stringify(data));
        var cached := old(Lookup(server.cache.View(), IpfsHash(ff, bytes)));
        ff.stringify(data) != "" && server.Cacheable(|bytes|) && cached.Some? ==>
          answer == Ok(IpfsHash(ff, bytes)) && sent.None?
      ensures var bytes := ff.utf8Encode(ff.stringify(data));
        var cached := old(Lookup(server.cache.View(), IpfsHash(ff, bytes)));
        ff.stringify(data) != "" && server.Cacheable(|bytes|) && cached.None? && others == [] ==>
          && answer == reply && sent.Some?
          && (reply.Ok? && old(Lookup(server.cache.View(), reply.value)).None? ==> Lookup(server.cache.View(), reply.value) == sent)
    {
      var text := ff.stringify(data);
      if text == "" {
        return Err("invalid json"), Err("invalid json"), None;
      }
      var bytes := FromSeq(ff.utf8Encode(text));
      r, answer, sent := StoreContent(bytes, reply, others);
    }

    /** `build(name, ...params)`: a non-empty memoized result is answered without
        looking the name up in the registry; an unknown task is refused; otherwise the memoizer runs
        the build task (whose result or error is `outcome`) or waits for the invocation
        already running it (which memoized `released`). */
    method Build(name: string, params: seq<Value>, outcome: Result<string, string>, released: Option<string>)
      returns (r: Result<Option<string>, string>, ghost ran: bool)
      modifies cache
      ensures var t := Token(ff, name, params);
        && (Recall(old(cache.State()), t) != "" ==>
              r == Ok(Some(Recall(old(cache.State()), t))) && cache.State() == old(cache.State()) && !ran)
        && (Recall(old(cache.State()), t) == "" && !IsTask(name) ==>
              r == Err("no such build task: " + name) && cache.State() == old(cache.State()) && !ran)
        && (Recall(old(cache.State()), t) == "" && IsTask(name) ==>
              && cache.State() == StoreState(old(cache.State()), t, outcome, released)
              && r == StoreAnswer(old(cache.State()), t, outcome, released)
              && (ran <==> PathOf(old(cache.State()), t) == Ran))
    {
      var cached := cache.Retrieve(ff, name, params);
      if cached != "" {
        return Ok(Some(cached)), false;
      }
      if !IsTask(name) {
        return Err("no such build task: " + name), false;
      }
      r, ran := cache.Store(ff, name, params, outcome, released);
    }
  }
}
