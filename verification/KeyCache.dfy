/**
  The memoised public-key decode of the inbox (`internal/activitypub/public_key_cache.go`) against the uncached
  verification. The LRU list may drop any entries whenever one is added, and at any time between calls.
  */
module KeyCache {
  import opened Basics
  import opened Text
  import opened HttpSignature

  type Lru = map<string, PublicKey>

  /** publicKeyCacheKey; `hash` is the hex SHA-256. */
  function CacheKey(hash: string -> string, keyId: string, pem: string): string {
    hash(keyId + (['\0'] + pem))
  }

  ghost predicate CollisionFree(hash: string -> string) {
    forall a: string, b: string {:trigger hash(a), hash(b)} :: hash(a) == hash(b) ==> a == b
  }

  predicate NulFree(s: string) {
    '\0' !in s
  }

  lemma CacheKeyInjective(hash: string -> string, keyId: string, pem: string, otherId: string, other: string)
    requires CollisionFree(hash) && NulFree(keyId) && NulFree(otherId)
    requires CacheKey(hash, keyId, pem) == CacheKey(hash, otherId, other)
    ensures keyId == otherId && pem == other
  {
    FirstSeparator(keyId, otherId, pem, other, '\0');
  }

  /** A key id with a NUL in it shares its cache entries with a shorter one. */
  lemma SharedEntry(hash: string -> string, keyId: string, pem: string) returns (otherId: string, other: string)
    requires !NulFree(keyId)
    ensures NulFree(otherId) && otherId != keyId && CacheKey(hash, keyId, pem) == CacheKey(hash, otherId, other)
  {
    var n := IndexOf(keyId, '\0');
    otherId, other := keyId[..n], keyId[n + 1..] + (['\0'] + pem);
    assert keyId == keyId[..n] + (['\0'] + keyId[n + 1..]);
    assert keyId + (['\0'] + pem) == otherId + (['\0'] + other);
  }

  /** The separator keeps entries apart exactly for key ids without NUL. */
  lemma EntryIsOwnIff(hash: string -> string, keyId: string, pem: string)
    requires CollisionFree(hash)
    ensures NulFree(keyId) <==> forall otherId: string, other: string {:trigger CacheKey(hash, otherId, other)} ::
              NulFree(otherId) && CacheKey(hash, otherId, other) == CacheKey(hash, keyId, pem) ==>
                otherId == keyId && other == pem
  {
    if NulFree(keyId) {
      forall otherId: string, other: string |
        NulFree(otherId) && CacheKey(hash, otherId, other) == CacheKey(hash, keyId, pem)
        ensures otherId == keyId && other == pem
      {
        CacheKeyInjective(hash, keyId, pem, otherId, other);
      }
    } else {
      var otherId, other := SharedEntry(hash, keyId, pem);
      assert CacheKey(hash, otherId, other) == CacheKey(hash, keyId, pem);
    }
  }

  /** Every entry is what decoding its PEM gives. */
  ghost predicate Faithful(c: Crypto, hash: string -> string, lru: Lru) {
    forall keyId: string, pem: string {:trigger CacheKey(hash, keyId, pem)} ::
      NulFree(keyId) && CacheKey(hash, keyId, pem) in lru ==> c.parse(pem) == Some(lru[CacheKey(hash, keyId, pem)])
  }

  /** VerifyRequest, with the key type VerifyRequestCached reports. */
  function Uncached(c: Crypto, v: View, pem: string): Result<KeyType> {
    var r := VerifyRequest(c, v, pem);
    if r.Err? then Err(r.error) else Ok(c.parse(pem).value.kt)
  }

  /** parsedKey on a list: the key, and the list with a new entry if one was decoded. `keep` survives the insertion. */
  function Lookup(c: Crypto, hash: string -> string, lru: Lru, keyId: string, pem: string,
                  keep: set<string>): (Option<PublicKey>, Lru)
  {
    var ck := CacheKey(hash, keyId, pem);
    if ck in lru then (Some(lru[ck]), lru)
    else
      var pub := c.parse(pem);
      if pub.None? then (None, lru) else (pub, (map k | k in lru && k in keep :: lru[k])[ck := pub.value])
  }

  function Cached(c: Crypto, hash: string -> string, lru: Lru, v: View, keyId: string, pem: string,
                  keep: set<string>): (Result<KeyType>, Lru)
  {
    var parsed := ParseForVerify(v);
    if parsed.Err? then (Err(parsed.error), lru)
    else
      var (pub, after) := Lookup(c, hash, lru, keyId, pem, keep);
      if pub.None? then (Err(BadPem), after)
      else
        var r := VerifyParsed(c, v, parsed.value, pub.value);
        (if r.Err? then Err(r.error) else Ok(pub.value.kt), after)
  }

  lemma LookupIsFaithful(c: Crypto, hash: string -> string, lru: Lru, keyId: string, pem: string, keep: set<string>)
    requires CollisionFree(hash) && Faithful(c, hash, lru) && NulFree(keyId)
    ensures var (pub, after) := Lookup(c, hash, lru, keyId, pem, keep);
            pub == c.parse(pem) && Faithful(c, hash, after)
  {
    var ck := CacheKey(hash, keyId, pem);
    var (pub, after) := Lookup(c, hash, lru, keyId, pem, keep);
    forall otherId: string, other: string | NulFree(otherId) && CacheKey(hash, otherId, other) in after
      ensures c.parse(other) == Some(after[CacheKey(hash, otherId, other)])
    {
      if CacheKey(hash, otherId, other) == ck {
        CacheKeyInjective(hash, keyId, pem, otherId, other);
      }
    }
  }

  /** One cached call gives the uncached answer, errors included. */
  lemma CachedIsUncached(c: Crypto, hash: string -> string, lru: Lru, v: View, keyId: string, pem: string,
                         keep: set<string>)
    requires CollisionFree(hash) && Faithful(c, hash, lru) && NulFree(keyId)
    ensures var (r, after) := Cached(c, hash, lru, v, keyId, pem, keep);
            r == Uncached(c, v, pem) && Faithful(c, hash, after)
  {
    LookupIsFaithful(c, hash, lru, keyId, pem, keep);
  }

  // ----- histories -----

  datatype Event =
    | Call(view: View, keyId: string, pem: string, keep: set<string>)
    | Evict(keep: set<string>)

  /** The list after an event. */
  function After(c: Crypto, hash: string -> string, lru: Lru, e: Event): Lru {
    if e.Evict? then map k | k in lru && k in e.keep :: lru[k]
    else Cached(c, hash, lru, e.view, e.keyId, e.pem, e.keep).1
  }

  function Answer(c: Crypto, hash: string -> string, lru: Lru, e: Event): seq<Result<KeyType>> {
    if e.Evict? then [] else [Cached(c, hash, lru, e.view, e.keyId, e.pem, e.keep).0]
  }

  function Answers(c: Crypto, hash: string -> string, lru: Lru, events: seq<Event>): seq<Result<KeyType>>
    decreases |events|
  {
    if events == [] then []
    else Answer(c, hash, lru, events[0]) + Answers(c, hash, After(c, hash, lru, events[0]), events[1..])
  }

  function UncachedAnswers(c: Crypto, events: seq<Event>): seq<Result<KeyType>>
    decreases |events|
  {
    if events == [] then []
    else
      var e := events[0];
      (if e.Evict? then [] else [Uncached(c, e.view, e.pem)]) + UncachedAnswers(c, events[1..])
  }

  lemma StepIsUncached(c: Crypto, hash: string -> string, lru: Lru, e: Event)
    requires CollisionFree(hash) && Faithful(c, hash, lru) && (e.Call? ==> NulFree(e.keyId))
    ensures Answer(c, hash, lru, e) == (if e.Evict? then [] else [Uncached(c, e.view, e.pem)])
    ensures Faithful(c, hash, After(c, hash, lru, e))
  {
    if e.Call? {
      CachedIsUncached(c, hash, lru, e.view, e.keyId, e.pem, e.keep);
    }
  }

  /** Whatever came before, whatever was evicted and however often a key's PEM changed. */
  lemma {:induction false} HistoryIsUncached(c: Crypto, hash: string -> string, lru: Lru, events: seq<Event>)
    requires CollisionFree(hash) && Faithful(c, hash, lru)
    requires forall e :: e in events && e.Call? ==> NulFree(e.keyId)
    ensures Answers(c, hash, lru, events) == UncachedAnswers(c, events)
    decreases |events|
  {
    if events == [] {
    } else {
      assert events[0] in events;
      StepIsUncached(c, hash, lru, events[0]);
      HistoryIsUncached(c, hash, After(c, hash, lru, events[0]), events[1..]);
    }
  }

  /** Without NUL-free key ids it fails: the second caller is answered with the first caller's key. */
  lemma NulMixesKeys(c: Crypto, hash: string -> string, v: View, a: PublicKey)
    requires c.parse("y") == Some(a) && c.parse("x\0y") == None && ParseForVerify(v).Ok?
    ensures var events := [Call(v, "k\0x", "y", {}), Call(v, "k", "x\0y", {})];
            var answers := Answers(c, hash, map[], events);
            |answers| == 2 && answers[1] != Err(BadPem) && UncachedAnswers(c, events)[1..] == [Err(BadPem)]
  {
    var e, f := Call(v, "k\0x", "y", {}), Call(v, "k", "x\0y", {});
    assert ("k\0x" + (['\0'] + "y")) == ("k" + (['\0'] + "x\0y"));
    var (r, after) := Cached(c, hash, map[], v, "k\0x", "y", {});
    assert after[CacheKey(hash, "k", "x\0y")] == a;
    assert [e, f][1..] == [f] && [f][1..] == [] && After(c, hash, map[], e) == after;
    assert Answers(c, hash, after, [f]) == [Cached(c, hash, after, v, "k", "x\0y", {}).0] + [];
    assert UncachedAnswers(c, [f]) == [Err(BadPem)] + [];
    NeverBadPem(c, v, ParseForVerify(v).value, a);
  }

  lemma NeverBadPem(c: Crypto, v: View, parsed: Parsed, pub: PublicKey)
    ensures VerifyParsed(c, v, parsed, pub) != Err(BadPem)
  {}

  class PublicKeyCache {
    const c: Crypto
    const hash: string -> string
    /** Absent when the list could not be built: every call decodes. */
    const hasLru: bool
    var lru: Lru

    ghost predicate Valid()
      reads this
    {
      CollisionFree(hash) && Faithful(c, hash, lru)
    }

    constructor (c: Crypto, hash: string -> string, built: bool)
      requires CollisionFree(hash)
      ensures Valid() && this.c == c && this.hash == hash && hasLru == built && lru == map[]
    {
      this.c, this.hash, hasLru, lru := c, hash, built, map[];
    }

    /** The list drops what it likes between calls. */
    method Evict()
      requires Valid()
      modifies this
      ensures Valid() && lru.Keys <= old(lru.Keys)
    {
      var keep: set<string> := *;
      lru := map k | k in lru && k in keep :: lru[k];
    }

    /** `kept` are the entries that survive if one is added. */
    method ParsedKey(keyId: string, pem: string) returns (r: Option<PublicKey>, ghost kept: set<string>)
      modifies this
      ensures if hasLru then (r, lru) == Lookup(c, hash, old(lru), keyId, pem, kept)
              else r == c.parse(pem) && lru == old(lru)
      ensures old(Valid()) && NulFree(keyId) ==> Valid() && r == c.parse(pem)
    {
      var keep: set<string> := *;
      kept := keep;
      if CollisionFree(hash) && Faithful(c, hash, lru) && NulFree(keyId) {
        LookupIsFaithful(c, hash, lru, keyId, pem, keep);
      }
      if !hasLru {
        r := c.parse(pem);
        return;
      }
      var ck := CacheKey(hash, keyId, pem);
      if ck in lru {
        r := Some(lru[ck]);
        return;
      }
      r := c.parse(pem);
      if r.Some? {
        lru := (map k | k in lru && k in keep :: lru[k])[ck := r.value];
      }
    }

    method VerifyRequestCached(v: View, keyId: string, pem: string)
      returns (r: Result<KeyType>, ghost kept: set<string>)
      modifies this
      ensures if hasLru then (r, lru) == Cached(c, hash, old(lru), v, keyId, pem, kept)
              else r == Uncached(c, v, pem) && lru == old(lru)
      ensures old(Valid()) && NulFree(keyId) ==> Valid() && r == Uncached(c, v, pem)
      ensures ParseForVerify(v).Err? ==> lru == old(lru)
    {
      kept := {};
      var parsed := ParseForVerify(v);
      if parsed.Err? {
        r := Err(parsed.error);
        return;
      }
      var pub;
      pub, kept := ParsedKey(keyId, pem);
      if pub.None? {
        r := Err(BadPem);
        return;
      }
      var ok := VerifyParsed(c, v, parsed.value, pub.value);
      r := if ok.Err? then Err(ok.error) else Ok(pub.value.kt);
    }
  }
}
