/** The Redis keys of the token service and the commands it runs on them. */
module TokenStore {
  import opened Prelude

  /** REFRESH_TOKEN_GRACE: seconds for which a spent refresh token still answers `grace`. */
  const GRACE: nat := 10

  datatype Key = Key(user: nat, jti: nat)

  /** The stored values '1' and 'used'. */
  datatype Mark = One | Used

  datatype Entry = Entry(mark: Mark, expires: nat)

  type Keys = map<Key, Entry>

  datatype Reply = Valid | Grace | Invalid

  /** GET: an entry past its expiry reads as nil. */
  function Lookup(keys: Keys, key: Key, now: nat): Option<Mark> {
    if key in keys && now < keys[key].expires then Some(keys[key].mark) else None
  }

  /** The Lua script of `consumeRefreshToken`, which Redis runs without interruption. */
  function ConsumeScript(keys: Keys, key: Key, now: nat): (Keys, Reply) {
    match Lookup(keys, key, now)
    case Some(One) => (keys[key := Entry(Used, now + GRACE)], Valid)
    case Some(Used) => (keys, Grace)
    case None => (keys, Invalid)
  }

  function Remember(keys: Keys, key: Key, now: nat, ttl: nat): Keys {
    keys[key := Entry(One, now + ttl)]
  }

  function Forgotten(keys: Keys, key: Key): Keys {
    keys - {key}
  }

  const MAX_SAFE: int := 9007199254740991

  predicate SafeInteger(v: int) {
    -MAX_SAFE <= v <= MAX_SAFE
  }

  function NormalizeAuthVersion(v: int): int {
    if SafeInteger(v) && v >= 0 then v else 0
  }

  datatype User = User(active: bool, authVersion: int)

  /** The payload of an access token: its user and id, the version it was signed for, and its expiry if it carries one. */
  datatype Access = Access(user: nat, jti: nat, authVersion: int, exp: Option<nat>)

  predicate Verifies(token: Access, now: nat) {
    token.exp.Some? ==> now < token.exp.value
  }

  predicate Blacklisted(blacklist: map<nat, nat>, jti: nat, now: nat) {
    jti in blacklist && now < blacklist[jti]
  }

  /** The user of the token exists, is active, and still has the version the token was signed for. */
  predicate UserAdmits(users: map<nat, User>, token: Access) {
    && SafeInteger(token.authVersion) && token.authVersion >= 0
    && token.user in users && users[token.user].active && users[token.user].authVersion == token.authVersion
  }

  /** What the request guard lets through. */
  predicate Accepted(users: map<nat, User>, blacklist: map<nat, nat>, token: Access, now: nat) {
    Verifies(token, now) && UserAdmits(users, token) && !Blacklisted(blacklist, token.jti, now)
  }

  class TokenService {
    const refreshTtl: nat
    const accessTtl: nat
    var keys: Keys
    var blacklist: map<nat, nat>

    constructor (refreshTtl: nat, accessTtl: nat)
      ensures keys == map[] && blacklist == map[]
      ensures this.refreshTtl == refreshTtl && this.accessTtl == accessTtl
    {
      this.refreshTtl := refreshTtl;
      this.accessTtl := accessTtl;
      keys := map[];
      blacklist := map[];
    }

    /** `GET`, then `SET ... EX` and `valid`, or `grace`, or `invalid`. */
    method ConsumeRefreshToken(user: nat, jti: nat, now: nat) returns (reply: Reply)
      modifies `keys
      ensures (keys, reply) == ConsumeScript(old(keys), Key(user, jti), now)
    {
      var key := Key(user, jti);
      if key in keys && now < keys[key].expires {
        if keys[key].mark == One {
          keys := keys[key := Entry(Used, now + GRACE)];
          return Valid;
        }
        return Grace;
      }
      return Invalid;
    }

    /** The write of `generateTokens`. */
    method StoreRefreshToken(user: nat, jti: nat, now: nat)
      modifies `keys
      ensures keys == Remember(old(keys), Key(user, jti), now, refreshTtl)
    {
      keys := keys[Key(user, jti) := Entry(One, now + refreshTtl)];
    }

    method DeleteRefreshToken(user: nat, jti: nat)
      modifies `keys
      ensures keys == Forgotten(old(keys), Key(user, jti))
    {
      keys := keys - {Key(user, jti)};
    }

    /** A write that fails is swallowed, like a token that no longer verifies. */
    method BlacklistAccessToken(token: Access, now: nat, writeOk: bool)
      modifies `blacklist
      ensures blacklist == if writeOk then AfterBlacklist(old(blacklist), token, now, accessTtl) else old(blacklist)
    {
      if token.exp.Some? && token.exp.value <= now {
        return;
      }
      var remaining := if token.exp.Some? then token.exp.value - now else accessTtl;
      if remaining > 0 && writeOk {
        blacklist := blacklist[token.jti := now + remaining];
      }
    }
  }

  function AfterBlacklist(blacklist: map<nat, nat>, token: Access, now: nat, accessTtl: nat): map<nat, nat> {
    if !Verifies(token, now) then blacklist
    else if token.exp.Some? then blacklist[token.jti := token.exp.value]
    else if accessTtl > 0 then blacklist[token.jti := now + accessTtl]
    else blacklist
  }

  /** The keys after asking for one token at each of these times, and the answers. */
  function Asked(keys: Keys, key: Key, times: seq<nat>): (r: (Keys, seq<Reply>))
    ensures |r.1| == |times|
  {
    if times == [] then (keys, [])
    else
      var (before, replies) := Asked(keys, key, times[..|times| - 1]);
      var (after, reply) := ConsumeScript(before, key, times[|times| - 1]);
      (after, replies + [reply])
  }

  predicate Ascending(start: nat, times: seq<nat>) {
    && (times != [] ==> start <= times[0])
    && (forall i, j | 0 <= i < j < |times| :: times[i] <= times[j])
  }

  /** What a token stored until `expires` answers the `k`-th time it is asked; a grace lasts ten seconds. */
  function LifeAnswer(expires: nat, times: seq<nat>, k: nat): Reply
    requires k < |times|
  {
    if expires <= times[0] then Invalid
    else if k == 0 then Valid
    else if times[k] < times[0] + 10 then Grace
    else Invalid
  }

  /**
   * The life of a stored token, however often and whenever it is asked for: `valid` the first time if that is
   * within its lifetime, `grace` for the grace seconds after that first time, then `invalid`. Asking during the
   * grace does not prolong it, and no other key changes.
   */
  lemma {:induction false} StoredTokenLife(keys: Keys, key: Key, now: nat, ttl: nat, times: seq<nat>)
    requires Ascending(now, times)
    ensures var (after, replies) := Asked(Remember(keys, key, now, ttl), key, times);
            && (forall k | 0 <= k < |times| :: replies[k] == LifeAnswer(now + ttl, times, k))
            && key in after && after - {key} == keys - {key}
            && after[key] == if times == [] || now + ttl <= times[0] then Entry(One, now + ttl) else Entry(Used, times[0] + 10)
    decreases times
  {
    if times != [] {
      StoredTokenLife(keys, key, now, ttl, times[..|times| - 1]);
    }
  }

  /** A deleted token answers `invalid` however often it is asked for, and asking changes nothing. */
  lemma {:induction false} DeletedTokenIsDead(keys: Keys, key: Key, times: seq<nat>)
    ensures var (after, replies) := Asked(Forgotten(keys, key), key, times);
            after == Forgotten(keys, key) && forall k | 0 <= k < |times| :: replies[k] == Invalid
    decreases times
  {
    if times != [] {
      DeletedTokenIsDead(keys, key, times[..|times| - 1]);
    }
  }

  /** Only the answer `valid` changes a key, and only that key, from a live '1' to 'used'. */
  lemma ScriptEffect(keys: Keys, key: Key, now: nat)
    ensures var (after, reply) := ConsumeScript(keys, key, now);
            && (reply != Valid ==> after == keys)
            && (forall other | other != key :: Lookup(after, other, now) == Lookup(keys, other, now))
            && (reply == Valid ==> ConsumeScript(after, key, now).1 == Grace)
  {
  }
}
