// The in-memory half of SessionRevocationStore (apps/api/src/auth.ts): what each call does to its maps and which
// durable writes it issues. `Memory` is the specification; the class below it is proved to follow it.

module Revocation {
  import opened Numbers
  import opened Options
  import opened Tokens

  // One revocation: `key` is refused through `until` (epoch milliseconds).
  datatype Entry<+K> = Entry(key: K, until: nat)

  const DEFAULT_REVOCATION_MS: nat := 400 * 24 * 60 * 60 * 1000

  // `map.get(key) ?? 0`
  function GetOrZero<K>(m: map<K, nat>, k: K): nat {
    if k in m then m[k] else 0
  }

  // Keep the larger of the stored and the new value.
  function Raise<K>(m: map<K, nat>, k: K, v: nat): map<K, nat> {
    m[k := Max(GetOrZero(m, k), v)]
  }

  function RaiseAll<K>(m: map<K, nat>, entries: seq<Entry<K>>): map<K, nat> {
    if entries == [] then m
    else
      var last := entries[|entries| - 1];
      Raise(RaiseAll(m, entries[..|entries| - 1]), last.key, last.until)
  }

  // A successful save clears the retry entry unless a later revocation raised it meanwhile.
  function Settle<K>(unsaved: map<K, nat>, k: K, v: nat): map<K, nat> {
    if GetOrZero(unsaved, k) <= v then unsaved - {k} else unsaved
  }

  function Unexpired<K>(m: map<K, nat>, now: nat): map<K, nat> {
    map k | k in m && now <= m[k] :: m[k]
  }

  datatype Memory = Memory(
    revoked: map<Text, nat>,
    epochs: map<string, nat>,
    unsaved: map<Text, nat>,
    unsavedEpochs: map<string, nat>,
    loaded: bool,
    attached: bool)
  {
    function Revoke(token: Token, until: nat): Memory {
      if IsBlank(token) then this
      else
        var byHash := revoked[TokenSignatureHash(token) := until];
        match SessionIdOf(token)
        case Some(sid) => this.(revoked := byHash[sid := until])
        case None => this.(revoked := byHash)
    }

    function RevokeHash(key: Text, until: nat): Memory {
      if IsHex64(key) then this.(revoked := Raise(revoked, key, until)) else this
    }

    function RevokeUser(userId: string, epoch: nat): Memory {
      if userId == "" then this else this.(epochs := Raise(epochs, userId, epoch))
    }

    function BeginLoad(): Memory {
      this.(attached := true, loaded := false)
    }

    function FinishLoad(signatures: seq<Entry<Text>>, userEpochs: seq<Entry<string>>): Memory {
      this.(revoked := RaiseAll(revoked, signatures), epochs := RaiseAll(epochs, userEpochs), loaded := true)
    }

    function Detach(): Memory {
      this.(attached := false, loaded := true)
    }

    function Expire(now: nat): Memory {
      this.(revoked := Unexpired(revoked, now), unsaved := Unexpired(unsaved, now))
    }

    // `exp !== undefined && Date.now() <= exp`
    predicate Holds(key: Text, now: nat) {
      key in revoked && now <= revoked[key]
    }

    predicate UserCutOff(userId: Option<string>, issuedAtMs: Option<int>) {
      && userId.Some? && userId.value != "" && userId.value in epochs
      && (issuedAtMs.None? || issuedAtMs.value < epochs[userId.value])
    }

    predicate IsRevoked(token: Token, now: nat, userId: Option<string>, issuedAtMs: Option<int>) {
      || IsBlank(token)
      || !loaded
      || (exists key :: key in LookupKeys(token) && Holds(key, now))
      || UserCutOff(userId, issuedAtMs)
    }

    // isRevoked drops the token's own entry once it has expired.
    function AfterQuery(token: Token, now: nat): Memory {
      var hash := TokenSignatureHash(token);
      if IsBlank(token) || !loaded || hash !in revoked || now <= revoked[hash] then this
      else this.(revoked := revoked - {hash})
    }
  }

  const FRESH_MEMORY := Memory(map[], map[], map[], map[], true, false)

  // The keys a revocation of `token` is stored under, in the order they are saved.
  function RevocationKeys(token: Token): seq<Text> {
    if IsBlank(token) then []
    else
      match SessionIdOf(token)
      case Some(sid) => [TokenSignatureHash(token), sid]
      case None => [TokenSignatureHash(token)]
  }

  // The keys whose revocation refuses `token`.
  function LookupKeys(token: Token): set<Text> {
    match SessionIdOf(token)
    case Some(sid) => {TokenSignatureHash(token), sid, SessionIdHash(sid)}
    case None => {TokenSignatureHash(token)}
  }

  function EntriesFor(token: Token, until: nat): seq<Entry<Text>> {
    var keys := RevocationKeys(token);
    seq(|keys|, i requires 0 <= i < |keys| => Entry(keys[i], until))
  }

  function ExpiryOrDefault(expiry: Option<nat>, now: nat): nat {
    match expiry
    case Some(ms) => ms
    case None => now + DEFAULT_REVOCATION_MS
  }

  class SessionRevocationStore {
    var revokedSignatures: map<Text, nat>
    var userRevocationEpochs: map<string, nat>
    var unsavedSignatures: map<Text, nat>
    var unsavedUserEpochs: map<string, nat>
    var loaded: bool
    var attached: bool

    ghost function View(): Memory
      reads this
    {
      Memory(revokedSignatures, userRevocationEpochs, unsavedSignatures, unsavedUserEpochs, loaded, attached)
    }

    constructor ()
      ensures View() == FRESH_MEMORY
    {
      revokedSignatures, userRevocationEpochs := map[], map[];
      unsavedSignatures, unsavedUserEpochs := map[], map[];
      loaded, attached := true, false;
    }

    // `writes` are the durable saves the call starts.
    method RevokeToken(token: Token, expiry: Option<nat>, now: nat) returns (writes: seq<Entry<Text>>)
      modifies this
      ensures View() == old(View()).Revoke(token, ExpiryOrDefault(expiry, now))
      ensures writes == if attached then EntriesFor(token, ExpiryOrDefault(expiry, now)) else []
    {
      if IsBlank(token) { return []; }
      var hash := TokenSignatureHash(token);
      var ttl := ExpiryOrDefault(expiry, now);
      revokedSignatures := revokedSignatures[hash := ttl];
      writes := if attached then [Entry(hash, ttl)] else [];
      var sid := SessionIdOf(token);
      if sid.Some? {
        revokedSignatures := revokedSignatures[sid.value := ttl];
        writes := writes + if attached then [Entry(sid.value, ttl)] else [];
      }
    }

    method RevokeSessionHash(key: Text, until: nat) returns (writes: seq<Entry<Text>>)
      modifies this
      ensures View() == old(View()).RevokeHash(key, until)
      ensures writes == if IsHex64(key) && attached then [Entry(key, until)] else []
    {
      if !IsHex64(key) { return []; }
      revokedSignatures := Raise(revokedSignatures, key, until);
      writes := if attached then [Entry(key, until)] else [];
    }

    method RevokeUser(userId: string, epoch: nat) returns (writes: seq<Entry<string>>)
      modifies this
      ensures View() == old(View()).RevokeUser(userId, epoch)
      ensures writes == if userId != "" && attached then [Entry(userId, epoch)] else []
    {
      if userId == "" { return []; }
      userRevocationEpochs := Raise(userRevocationEpochs, userId, epoch);
      writes := if attached then [Entry(userId, epoch)] else [];
    }

    // The two callbacks of saveSignature.
    method SignatureSaved(hash: Text, ttl: nat)
      modifies this
      ensures View() == old(View()).(unsaved := Settle(old(unsavedSignatures), hash, ttl))
    {
      if GetOrZero(unsavedSignatures, hash) <= ttl { unsavedSignatures := unsavedSignatures - {hash}; }
    }

    method SignatureRefused(hash: Text, ttl: nat)
      modifies this
      ensures View() == old(View()).(unsaved := Raise(old(unsavedSignatures), hash, ttl))
    {
      unsavedSignatures := unsavedSignatures[hash := Max(GetOrZero(unsavedSignatures, hash), ttl)];
    }

    // The two callbacks of saveUserEpoch.
    method UserEpochSaved(userId: string, epoch: nat)
      modifies this
      ensures View() == old(View()).(unsavedEpochs := Settle(old(unsavedUserEpochs), userId, epoch))
    {
      if GetOrZero(unsavedUserEpochs, userId) <= epoch { unsavedUserEpochs := unsavedUserEpochs - {userId}; }
    }

    method UserEpochRefused(userId: string, epoch: nat)
      modifies this
      ensures View() == old(View()).(unsavedEpochs := Raise(old(unsavedUserEpochs), userId, epoch))
    {
      unsavedUserEpochs := unsavedUserEpochs[userId := Max(GetOrZero(unsavedUserEpochs, userId), epoch)];
    }

    // attachPersistence up to its `await persistence.load(...)`.
    method AttachPersistence()
      modifies this
      ensures View() == old(View()).BeginLoad()
    {
      attached, loaded := true, false;
    }

    // attachPersistence once the load has answered.
    method PersistenceLoaded(signatures: seq<Entry<Text>>, userEpochs: seq<Entry<string>>)
      modifies this
      ensures View() == old(View()).FinishLoad(signatures, userEpochs)
    {
      for i := 0 to |signatures|
        invariant View() == old(View()).(revoked := RaiseAll(old(revokedSignatures), signatures[..i]))
      {
        revokedSignatures := Raise(revokedSignatures, signatures[i].key, signatures[i].until);
        assert signatures[..i + 1][..i] == signatures[..i];
      }
      assert signatures[..|signatures|] == signatures;
      for i := 0 to |userEpochs|
        invariant View() == old(View()).(revoked := RaiseAll(old(revokedSignatures), signatures),
                                         epochs := RaiseAll(old(userRevocationEpochs), userEpochs[..i]))
      {
        userRevocationEpochs := Raise(userRevocationEpochs, userEpochs[i].key, userEpochs[i].until);
        assert userEpochs[..i + 1][..i] == userEpochs[..i];
      }
      assert userEpochs[..|userEpochs|] == userEpochs;
      loaded := true;
    }

    method DetachPersistence()
      modifies this
      ensures View() == old(View()).Detach()
    {
      attached, loaded := false, true;
    }

    method IsRevoked(token: Token, now: nat, userId: Option<string>, issuedAtMs: Option<int>) returns (refused: bool)
      modifies this
      ensures refused == old(View()).IsRevoked(token, now, userId, issuedAtMs)
      ensures View() == old(View()).AfterQuery(token, now)
    {
      if IsBlank(token) || !loaded { return true; }
      var hash := TokenSignatureHash(token);
      if hash in revokedSignatures {
        if now > revokedSignatures[hash] {
          revokedSignatures := revokedSignatures - {hash};
        } else {
          assert old(View()).Holds(hash, now) && hash in LookupKeys(token);
          return true;
        }
      }
      var sid := SessionIdOf(token);
      if sid.Some? {
        if sid.value in revokedSignatures && now <= revokedSignatures[sid.value] {
          assert old(View()).Holds(sid.value, now) && sid.value in LookupKeys(token);
          return true;
        }
        var sidHash := SessionIdHash(sid.value);
        if sidHash in revokedSignatures && now <= revokedSignatures[sidHash] {
          assert old(View()).Holds(sidHash, now) && sidHash in LookupKeys(token);
          return true;
        }
      }
      if userId.Some? && userId.value != "" && userId.value in userRevocationEpochs {
        if issuedAtMs.Some? {
          if issuedAtMs.value < userRevocationEpochs[userId.value] { return true; }
        } else {
          return true;
        }
      }
      return false;
    }

    // The two deletion loops of cleanup; its retries and its prune are separate steps of the protocol.
    method Cleanup(now: nat)
      modifies this
      ensures View() == old(View()).Expire(now)
    {
      revokedSignatures := DropExpired(revokedSignatures, now);
      unsavedSignatures := DropExpired(unsavedSignatures, now);
    }
  }

  method DropExpired<K(==)>(m: map<K, nat>, now: nat) returns (kept: map<K, nat>)
    ensures kept == Unexpired(m, now)
  {
    kept := m;
    var pending := m.Keys;
    while pending != {}
      invariant pending <= m.Keys
      invariant forall k :: k in kept <==> k in m && (k in pending || now <= m[k])
      invariant forall k :: k in kept ==> kept[k] == m[k]
      decreases |pending|
    {
      var k :| k in pending;
      if now > m[k] { kept := kept - {k}; }
      pending := pending - {k};
    }
  }
}
