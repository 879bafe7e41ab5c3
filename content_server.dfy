/** The caching content server: content addressed by an IPFS-style multihash,
    a bounded LRU cache in front of a slower backend, and a per-hash gate so that
    concurrent requests for one hash reach the backend once. */
module ContentServer {
  import opened Wrappers
  import opened Bytes
  import opened Foreign
  import opened LruSpec
  import opened LruBufferCache

  /** The multihash code of SHA-256. */
  const SHA2_256: byte := 0x12

  /** The digest length, 32, as the single byte `Buffer.from('20', 'hex')` gives. */
  const DIGEST_LENGTH: byte := 0x20

  /** The multihash framing of a SHA-256 digest. */
  function Multihash(d: Digest): seq<byte> {
    [SHA2_256, DIGEST_LENGTH] + d
  }

  /** Reading the framing back: the digest of a 34-byte SHA-256 multihash. */
  function DigestOf(m: seq<byte>): Option<Digest> {
    if |m| == 34 && m[0] == SHA2_256 && m[1] == DIGEST_LENGTH then Some(m[2..]) else None
  }

  /** The framing is exactly what `DigestOf` accepts: every digest frames to 34 bytes
      that read back as it, and whatever reads back as a digest is its framing. */
  lemma MultihashRoundTrip(d: Digest, m: seq<byte>)
    ensures |Multihash(d)| == 34 && DigestOf(Multihash(d)) == Some(d)
    ensures DigestOf(m) == Some(d) ==> m == Multihash(d)
  {
    assert Multihash(d)[2..] == d;
    if DigestOf(m) == Some(d) {
      assert m == m[..2] + m[2..];
    }
  }

  /** `ipfsHash(data)`: the base58 text of the multihash of the SHA-256 digest. */
  function IpfsHash(ff: Foreign, data: seq<byte>): string {
    ff.base58(Multihash(ff.sha256(data)))
  }

  /** A fresh buffer holding `s`, as the backend hands out. */
  method FromSeq(s: seq<byte>) returns (a: array<byte>)
    ensures fresh(a) && a[..] == s
  {
    a := new byte[|s|](i requires 0 <= i < |s| => s[i]);
  }

  /** What another request caches while this one is suspended: a hash and its own
      copy of the content. */
  datatype Interleaved = Interleaved(hash: string, data: seq<byte>)

  class CachingContentServer {
    /** `_mutex`: the hashes some request is fetching or storing right now. */
    var gates: set<string>
    const cache: LruContentCache
    /** The size ceiling; `None` is the default, `Infinity`. */
    const maxCacheItemSize: Option<int>

    ghost predicate Valid()
      reads cache, cache.lru, cache.arena
    {
      cache.Valid()
    }

    /** Content of `n` bytes is small enough to cache. */
    predicate Cacheable(n: nat) {
      maxCacheItemSize.None? || n < maxCacheItemSize.value
    }

    constructor(cache: LruContentCache, maxCacheItemSize: Option<int>)
      requires cache.Valid()
      ensures Valid() && gates == {} && this.cache == cache && this.maxCacheItemSize == maxCacheItemSize
    {
      gates := {};
      this.cache := cache;
      this.maxCacheItemSize := maxCacheItemSize;
    }

    /** `_waitHash` together with the suspension it is: while this request waits,
        the requests in `others` run and cache what they fetched; an existing gate is
        released (and deleted) by its holder, otherwise this request opens one. */
    method WaitHash(hash: string, others: seq<Interleaved>)
      requires Valid()
      modifies this, cache, cache.lru, cache.arena
      ensures Valid()
      ensures gates == if hash in old(gates) then old(gates) - {hash} else old(gates) + {hash}
      ensures others == [] ==> unchanged(cache, cache.lru, cache.arena)
    {
      if hash in gates {
        gates := gates - {hash};
      } else {
        gates := gates + {hash};
      }
      if others == [] {
        return;
      }
      var i := 0;
      while i < |others|
        invariant 0 <= i <= |others| && Valid()
        invariant gates == if hash in old(gates) then old(gates) - {hash} else old(gates) + {hash}
      {
        var d := FromSeq(others[i].data);
        var _ := cache.PutCache(others[i].hash, d, false);
        i := i + 1;
      }
    }

    /** `_signalHash`: delete this hash's gate, if any, and release its waiters. */
    method SignalHash(hash: string)
      modifies this
      ensures gates == old(gates) - {hash}
    {
      if hash in gates {
        gates := gates - {hash};
      }
    }

    /** `store(content)`. Content too large for the cache goes straight to the
        backend, uncopied. Otherwise a cached hash is answered from the cache, and a
        miss goes on as `StoreMissed`. `sent` is the buffer handed to the backend, if
        any; `reply` is the backend's answer. */
    method Store(ff: Foreign, content: array<byte>, reply: Result<string, string>, others: seq<Interleaved>)
      returns (r: Result<string, string>, ghost sent: Option<array<byte>>)
      requires Valid()
      modifies this, cache, cache.lru, cache.arena
      ensures Valid()
      ensures !Cacheable(content.Length) ==>
        r == reply && sent == Some(content) && gates == old(gates) && cache.View() == old(cache.View())
      ensures Cacheable(content.Length) && old(Lookup(cache.View(), IpfsHash(ff, content[..]))).Some? ==>
        r == Ok(IpfsHash(ff, content[..])) && sent.None? && gates == old(gates)
        && cache.View() == Touch(old(cache.View()), IpfsHash(ff, content[..]))
      ensures Cacheable(content.Length) && old(Lookup(cache.View(), IpfsHash(ff, content[..]))).None? ==>
        gates == old(gates) - {IpfsHash(ff, content[..])}
        && (sent.None? ==> r == Ok(IpfsHash(ff, content[..])))
        && (sent.Some? ==> r == reply && fresh(sent.value) && sent.value[..] == content[..])
        && (others == [] ==> sent.Some?)
        && (sent.Some? && r.Ok? ==> Lookup(cache.View(), r.value).Some?)
      ensures Cacheable(content.Length) && old(Lookup(cache.View(), IpfsHash(ff, content[..]))).None? && others == [] ==>
        && sent.Some? && r == reply
        && (r.Ok? ==> cache.View() == Put(old(cache.View()), r.value, sent.value, old(cache.arena.NextSlot())))
        && (r.Err? ==> cache.View() == old(cache.View()))
        && (r.Ok? && old(Lookup(cache.View(), r.value)).None? ==> Lookup(cache.View(), r.value) == sent)
        && (r.Ok? && r.value != IpfsHash(ff, content[..]) ==> Lookup(cache.View(), IpfsHash(ff, content[..])).None?)
    {
      if !Cacheable(content.Length) {
        return reply, Some(content);
      }
      var hash := IpfsHash(ff, content[..]);
      ghost var v := cache.View();
      ghost var g := gates;
      var cached := cache.GetCache(hash);
      assert cached == Lookup(v, hash) && gates == g;
      if cached.Some? {
        return Ok(hash), None;
      }
      LookupTouchSelf(v, hash);
      r, sent := StoreMissed(hash, content, reply, others);
      assert gates == g - {hash};
    }

    /** The miss path of `store`: take a copy, then wait on the hash's gate. */
    method StoreMissed(hash: string, content: array<byte>, reply: Result<string, string>, others: seq<Interleaved>)
      returns (r: Result<string, string>, ghost sent: Option<array<byte>>)
      requires Valid() && Lookup(cache.View(), hash).None?
      modifies this, cache, cache.lru, cache.arena
      ensures Valid() && gates == old(gates) - {hash}
      ensures sent.None? ==> r == Ok(hash)
      ensures sent.Some? ==> r == reply && fresh(sent.value) && sent.value[..] == content[..]
      ensures others == [] ==> sent.Some?
      ensures sent.Some? && r.Ok? ==> Lookup(cache.View(), r.value).Some?
      ensures others == [] && r.Ok? ==>
        cache.View() == Put(old(cache.View()), r.value, sent.value, old(cache.arena.NextSlot()))
      ensures others == [] && r.Err? ==> cache.View() == old(cache.View())
      ensures others == [] && r.Ok? && old(Lookup(cache.View(), r.value)).None? ==> Lookup(cache.View(), r.value) == sent
      ensures others == [] && r.Ok? && r.value != hash ==> Lookup(cache.View(), hash).None?
    {
      ghost var v := cache.View();
      var data := CopyContent(content);
      WaitHash(hash, others);
      r, sent := StoreGated(hash, data, reply);
      if others == [] && r.Ok? && r.value != hash {
        PutKeepsMissing(v, r.value, data, old(cache.arena.NextSlot()), hash);
      }
    }

    /** `store` past the gate: check the cache again; on a second miss send `data` to
        the backend and cache that same buffer (no second copy) under the key the
        backend answers, not under `hash`. The gate is released however it ends. */
    method StoreGated(hash: string, data: array<byte>, reply: Result<string, string>)
      returns (r: Result<string, string>, ghost sent: Option<array<byte>>)
      requires Valid()
      modifies this, cache, cache.lru, cache.arena
      ensures Valid() && gates == old(gates) - {hash}
      ensures sent.None? ==>
        r == Ok(hash) && old(Lookup(cache.View(), hash)).Some? && cache.View() == Touch(old(cache.View()), hash)
      ensures sent.Some? ==> r == reply && sent.value == data && old(Lookup(cache.View(), hash)).None?
      ensures sent.Some? && r.Ok? ==> cache.View() == Put(old(cache.View()), r.value, data, old(cache.arena.NextSlot()))
      ensures sent.Some? && r.Err? ==> cache.View() == old(cache.View())
      ensures sent.Some? && r.Ok? ==> Lookup(cache.View(), r.value).Some?
      ensures sent.Some? && r.Ok? && old(Lookup(cache.View(), r.value)).None? ==> Lookup(cache.View(), r.value) == Some(data)
    {
      ghost var v := cache.View();
      var again := cache.GetCache(hash);
      if again.Some? {
        SignalHash(hash);
        return Ok(hash), None;
      }
      TouchMissed(v, hash);
      sent := Some(data);
      r := StoreSent(hash, data, reply);
    }

    /** `store` after a second miss: the backend answers `reply` for `data`, which is
        then cached under that answer, and the gate is released. */
    method StoreSent(hash: string, data: array<byte>, reply: Result<string, string>) returns (r: Result<string, string>)
      requires Valid()
      modifies this, cache, cache.lru, cache.arena
      ensures Valid() && gates == old(gates) - {hash} && r == reply
      ensures r.Ok? ==> cache.View() == Put(old(cache.View()), r.value, data, old(cache.arena.NextSlot()))
      ensures r.Err? ==> cache.View() == old(cache.View())
      ensures r.Ok? ==> Lookup(cache.View(), r.value).Some?
      ensures r.Ok? && old(Lookup(cache.View(), r.value)).None? ==> Lookup(cache.View(), r.value) == Some(data)
    {
      r := reply;
      if reply.Ok? {
        var _ := Keep(reply.value, data, false);
      }
      SignalHash(hash);
    }

    /** `retrieve(hash)`: a cached hash is answered from the cache; a miss goes on as
        `RetrieveMissed`. `asked` says whether the backend was asked. */
    method Retrieve(hash: string, reply: Option<seq<byte>>, others: seq<Interleaved>)
      returns (r: Option<array<byte>>, ghost asked: bool)
      requires Valid()
      modifies this, cache, cache.lru, cache.arena
      ensures Valid()
      ensures old(Lookup(cache.View(), hash)).Some? ==>
        r == old(Lookup(cache.View(), hash)) && !asked && gates == old(gates)
        && cache.View() == Touch(old(cache.View()), hash)
      ensures old(Lookup(cache.View(), hash)).None? ==>
        gates == old(gates) - {hash}
        && (!asked ==> r.Some?)
        && (others == [] ==> asked)
        && (asked ==> (r.Some? <==> reply.Some?) && (r.Some? ==> fresh(r.value) && r.value[..] == reply.value))
        && (asked && reply.Some? && Cacheable(|reply.value|) ==> Lookup(cache.View(), hash).Some? && Lookup(cache.View(), hash) != r)
      ensures old(Lookup(cache.View(), hash)).None? && others == [] && reply.Some? && Cacheable(|reply.value|) ==>
        && Lookup(cache.View(), hash).Some? && fresh(Lookup(cache.View(), hash).value)
        && Lookup(cache.View(), hash).value[..] == reply.value
        && cache.View() == Put(old(cache.View()), hash, Lookup(cache.View(), hash).value, old(cache.arena.NextSlot()))
      ensures old(Lookup(cache.View(), hash)).None? && others == [] && !(reply.Some? && Cacheable(|reply.value|)) ==>
        cache.View() == old(cache.View())
    {
      ghost var v := cache.View();
      ghost var g := gates;
      r := cache.GetCache(hash);
      assert r == Lookup(v, hash) && gates == g;
      if r.Some? {
        return r, false;
      }
      LookupTouchSelf(v, hash);
      WaitHash(hash, others);
      r, asked := RetrieveGated(hash, reply);
      assert gates == g - {hash};
    }

    /** `retrieve` past the gate: check the cache again; on a second miss ask the
        backend, and cache a copy of what it answers when that is small enough, so
        the buffer returned is never the cached one. The gate is released however it
        ends. */
    method RetrieveGated(hash: string, reply: Option<seq<byte>>) returns (r: Option<array<byte>>, ghost asked: bool)
      requires Valid()
      modifies this, cache, cache.lru, cache.arena
      ensures Valid() && gates == old(gates) - {hash}
      ensures !asked ==> r == old(Lookup(cache.View(), hash)) && r.Some? && cache.View() == Touch(old(cache.View()), hash)
      ensures asked ==> old(Lookup(cache.View(), hash)).None?
      ensures asked ==> (r.Some? <==> reply.Some?) && (r.Some? ==> fresh(r.value) && r.value[..] == reply.value)
      ensures asked && reply.Some? && Cacheable(|reply.value|) ==>
        && Lookup(cache.View(), hash).Some? && Lookup(cache.View(), hash) != r
        && fresh(Lookup(cache.View(), hash).value) && Lookup(cache.View(), hash).value[..] == reply.value
        && cache.View() == Put(old(cache.View()), hash, Lookup(cache.View(), hash).value, old(cache.arena.NextSlot()))
      ensures asked && !(reply.Some? && Cacheable(|reply.value|)) ==> cache.View() == old(cache.View())
    {
      ghost var v := cache.View();
      r := cache.GetCache(hash);
      if r.Some? {
        SignalHash(hash);
        return r, false;
      }
      TouchMissed(v, hash);
      asked := true;
      r := RetrieveFetched(hash, reply);
    }

    /** `retrieve` after the backend answered `reply` for a hash the cache misses. */
    method RetrieveFetched(hash: string, reply: Option<seq<byte>>) returns (r: Option<array<byte>>)
      requires Valid() && Lookup(cache.View(), hash).None?
      modifies this, cache, cache.lru, cache.arena
      ensures Valid() && gates == old(gates) - {hash}
      ensures (r.Some? <==> reply.Some?) && (r.Some? ==> fresh(r.value) && r.value[..] == reply.value)
      ensures reply.Some? && Cacheable(|reply.value|) ==>
        && Lookup(cache.View(), hash).Some? && Lookup(cache.View(), hash) != r
        && fresh(Lookup(cache.View(), hash).value) && Lookup(cache.View(), hash).value[..] == reply.value
        && cache.View() == Put(old(cache.View()), hash, Lookup(cache.View(), hash).value, old(cache.arena.NextSlot()))
      ensures !(reply.Some? && Cacheable(|reply.value|)) ==> cache.View() == old(cache.View())
    {
      if reply.None? {
        SignalHash(hash);
        return None;
      }
      var data := FromSeq(reply.value);
      if Cacheable(data.Length) {
        var stored := Keep(hash, data, true);
      }
      SignalHash(hash);
      r := Some(data);
    }

    /** `putCache(k, data, needCopy)`: the cache becomes `Put` of the old one, after
        which `k` reads as some buffer: the one just stored (`data`, or its fresh copy)
        when `k` was not cached. */
    method Keep(k: string, data: array<byte>, needCopy: bool) returns (ghost stored: array<byte>)
      requires Valid()
      modifies cache, cache.lru, cache.arena
      ensures Valid() && Lookup(cache.View(), k).Some?
      ensures cache.View() == Put(old(cache.View()), k, stored, old(cache.arena.NextSlot()))
      ensures old(Lookup(cache.View(), k)).None? ==>
        Lookup(cache.View(), k) == Some(stored)
        && (needCopy ==> fresh(stored) && stored[..] == data[..])
        && (!needCopy ==> stored == data)
    {
      ghost var v := cache.View();
      ghost var s := cache.arena.NextSlot();
      assert v.index == cache.hashing;
      if k in v.index {
        IndexedFound(v, k);
        LookupTouchSelf(v, k);
      }
      stored := cache.PutCache(k, data, needCopy);
      if k !in v.index {
        LookupPutSelf(v, k, stored, s);
      }
    }
  }
}
