/**
 * Redis keys as strings, and the prefix operations of RedisCli
 * (backend/database/redis.py).
 */
module RedisKeys {
  type Store<V> = map<string, V>

  // ---------------------------------------------------------------- decimal numbers

  function Digit(d: nat): char
    requires d < 10
  {
    (48 + d) as char
  }

  function Dec(n: nat): string {
    if n < 10 then [Digit(n)] else Dec(n / 10) + [Digit(n % 10)]
  }

  predicate NoColon(s: string) {
    forall i :: 0 <= i < |s| ==> s[i] != ':'
  }

  lemma {:induction false} DecHasDigits(n: nat)
    ensures |Dec(n)| > 0 && forall i :: 0 <= i < |Dec(n)| ==> '0' <= Dec(n)[i] <= '9'
  {
    if n >= 10 {
      DecHasDigits(n / 10);
    }
  }

  lemma DecSplits(n: nat)
    requires n >= 10
    ensures |Dec(n)| >= 2 && Dec(n)[..|Dec(n)| - 1] == Dec(n / 10) && Dec(n)[|Dec(n)| - 1] == Digit(n % 10)
  {
    DecHasDigits(n / 10);
  }

  lemma {:induction false} DecIsInjective(m: nat, n: nat)
    requires Dec(m) == Dec(n)
    ensures m == n
  {
    if m >= 10 {
      DecSplits(m);
    }
    if n >= 10 {
      DecSplits(n);
    }
    if m >= 10 && n >= 10 {
      DecIsInjective(m / 10, n / 10);
    }
  }

  // ---------------------------------------------------------------- keys per user

  const TOKEN_PREFIX := "fba:token:"
  const REFRESH_PREFIX := "fba:refresh_token:"
  const EXTRA_PREFIX := "fba:token_extra_info:"
  const USER_PREFIX := "fba:user:"
  const USER_LOCK_PREFIX := "fba:user:lock:"

  /** A family of keys of the form <prefix><user id>:<session>. */
  datatype Family = Access | Refresh | Extra

  function FamilyPrefix(f: Family): string {
    match f case Access => TOKEN_PREFIX case Refresh => REFRESH_PREFIX case Extra => EXTRA_PREFIX
  }

  /** The prefix by which all keys of a user are purged; note that no colon ends it. */
  function UserPrefix(f: Family, user: nat): string {
    FamilyPrefix(f) + Dec(user)
  }

  function SessionKey(f: Family, user: nat, session: string): string {
    FamilyPrefix(f) + Dec(user) + ":" + session
  }

  /** The cached user information of get_jwt_user. */
  function UserKey(user: nat): string {
    USER_PREFIX + Dec(user)
  }

  /** The keys as the settings and services write them. */
  lemma KeysAreWritten(user: nat, session: string)
    ensures SessionKey(Access, user, session) == "fba:token:" + Dec(user) + ":" + session
    ensures SessionKey(Refresh, user, session) == "fba:refresh_token:" + Dec(user) + ":" + session
    ensures SessionKey(Extra, user, session) == "fba:token_extra_info:" + Dec(user) + ":" + session
    ensures UserKey(user) == "fba:user:" + Dec(user)
  {
  }

  /** Ids are written in decimal, the most significant digit first. */
  lemma DecIsWritten()
    ensures Dec(1024) == "1024"
  {
    assert Dec(10) == "10";
    assert Dec(102) == "102";
  }

  lemma ColonFreePrefix(a: string, b: string, rest: string)
    requires NoColon(a)
    ensures a <= b + ":" + rest <==> a <= b
  {
    var whole := b + ":" + rest;
    assert whole[|b|] == ':';
    if |b| < |a| {
      assert a[|b|] != ':';
    }
    if a <= b {
      assert whole[..|a|] == b[..|a|];
    }
  }

  lemma SamePrefix(p: string, a: string, b: string)
    ensures p + a <= p + b <==> a <= b
  {
    if p + a <= p + b {
      forall i | 0 <= i < |a| ensures a[i] == b[i] {
        assert (p + a)[|p| + i] == (p + b)[|p| + i];
      }
    }
    if a <= b {
      assert p + b == (p + a) + b[|a|..];
    }
  }

  lemma FamiliesDiffer(f: Family, g: Family, x: string, y: string)
    requires FamilyPrefix(f) + x <= FamilyPrefix(g) + y
    ensures f == g
  {
    var a, b := FamilyPrefix(f) + x, FamilyPrefix(g) + y;
    assert |FamilyPrefix(f)| >= 10 && |FamilyPrefix(g)| >= 10;
    assert a[4] == b[4] && a[9] == b[9];
    assert a[4] == FamilyPrefix(f)[4] && b[4] == FamilyPrefix(g)[4];
    assert a[9] == FamilyPrefix(f)[9] && b[9] == FamilyPrefix(g)[9];
  }

  /**
   * What purging a user's prefix reaches: exactly the keys of the same family
   * of the users whose decimal id extends the given one, itself included.
   */
  lemma PurgeReaches(f: Family, user: nat, g: Family, other: nat, session: string)
    ensures UserPrefix(f, user) <= SessionKey(g, other, session) <==> f == g && Dec(user) <= Dec(other)
  {
    var rest := Dec(other) + ":" + session;
    KeyAfterFamily(g, other, session);
    if f == g {
      SamePrefix(FamilyPrefix(f), Dec(user), rest);
      DecBegins(user, other, session);
    } else if FamilyPrefix(f) + Dec(user) <= FamilyPrefix(g) + rest {
      FamiliesDiffer(f, g, Dec(user), rest);
    }
  }

  lemma KeyAfterFamily(f: Family, user: nat, session: string)
    ensures SessionKey(f, user, session) == FamilyPrefix(f) + (Dec(user) + ":" + session)
  {
  }

  lemma DecBegins(user: nat, other: nat, session: string)
    ensures Dec(user) <= Dec(other) + ":" + session <==> Dec(user) <= Dec(other)
  {
    DecHasDigits(user);
    ColonFreePrefix(Dec(user), Dec(other), session);
  }

  lemma EndsBeforeColon(a: string, b: string, rest: string)
    requires NoColon(b) && |a| < |b|
    ensures !(a + ":" <= b + ":" + rest)
  {
    assert (a + ":")[|a|] == ':' && (b + ":" + rest)[|a|] == b[|a|];
  }

  lemma EndsAfterColon(a: string, b: string, rest: string)
    requires NoColon(a) && |b| < |a|
    ensures !(a + ":" <= b + ":" + rest)
  {
    assert (a + ":")[|b|] == a[|b|] && (b + ":" + rest)[|b|] == ':';
  }

  /** Up to the first colon two strings agree when one, with its colon, begins the other. */
  lemma SameUpToColon(a: string, b: string, rest: string)
    requires NoColon(a) && NoColon(b) && a + ":" <= b + ":" + rest
    ensures a == b
  {
    if |a| < |b| {
      EndsBeforeColon(a, b, rest);
    } else if |b| < |a| {
      EndsAfterColon(a, b, rest);
    } else {
      assert a == (a + ":")[..|a|] && b == (b + ":" + rest)[..|a|];
    }
  }

  /** With the colon, the prefix reaches the user's own keys only. */
  lemma OwnKeys(f: Family, user: nat, g: Family, other: nat, session: string)
    ensures UserPrefix(f, user) + ":" <= SessionKey(g, other, session) <==> f == g && user == other
  {
    var a, b := Dec(user) + ":", Dec(other) + ":" + session;
    assert SessionKey(g, other, session) == FamilyPrefix(g) + b;
    assert UserPrefix(f, user) + ":" == FamilyPrefix(f) + a;
    if UserPrefix(f, user) + ":" <= SessionKey(g, other, session) {
      FamiliesDiffer(f, g, a, b);
      SamePrefix(FamilyPrefix(f), a, b);
      DecHasDigits(user);
      DecHasDigits(other);
      SameUpToColon(Dec(user), Dec(other), session);
      DecIsInjective(user, other);
    }
  }

  /** A session key determines its family, user and session. */
  lemma SessionKeyIsInjective(f: Family, u: nat, s: string, g: Family, v: nat, t: string)
    requires SessionKey(f, u, s) == SessionKey(g, v, t)
    ensures f == g && u == v && s == t
  {
    var k := SessionKey(f, u, s);
    assert k == UserPrefix(f, u) + ":" + s;
    assert UserPrefix(f, u) + ":" <= k;
    OwnKeys(f, u, g, v, t);
    assert s == k[|UserPrefix(f, u)| + 1..] == t;
  }

  /** Purging cached users by prefix never touches a session key or a lock. */
  lemma UserKeysApart(user: nat, f: Family, other: nat, session: string)
    ensures !(UserKey(user) <= SessionKey(f, other, session))
    ensures !(UserPrefix(f, user) <= UserKey(other))
    ensures !(UserKey(user) <= USER_LOCK_PREFIX + Dec(other))
  {
    assert UserKey(user)[4] == 'u';
    assert |FamilyPrefix(f)| >= 10 && FamilyPrefix(f)[4] != 'u';
    assert SessionKey(f, other, session)[4] == FamilyPrefix(f)[4];
    assert UserPrefix(f, user)[4] == FamilyPrefix(f)[4];
    assert UserKey(other)[4] == 'u';
    DecHasDigits(user);
    assert UserKey(user)[9] == Dec(user)[0];
    assert (USER_LOCK_PREFIX + Dec(other))[9] == 'l';
  }

  // ---------------------------------------------------------------- prefix operations

  /** What remains after deleting the keys with a prefix, except some. */
  function Purged<V>(data: Store<V>, prefix: string, exclude: set<string>): Store<V> {
    map k | k in data && !(prefix <= k && k !in exclude) :: data[k]
  }

  /** SCAN MATCH prefix*: every matching key at least once, in any order. */
  ghost predicate Scans<V>(scan: seq<string>, data: Store<V>, prefix: string) {
    forall k :: k in scan <==> k in data && prefix <= k
  }

  class RedisCli<V> {
    var data: Store<V>

    constructor ()
      ensures data == map[]
    {
      data := map[];
    }

    method Delete(keys: seq<string>)
      modifies this
      ensures data == old(data) - (set k | k in keys)
    {
      data := data - (set k | k in keys);
    }

    /** SCAN over the keys with a prefix, in some order. */
    method Scan(prefix: string) returns (scan: seq<string>)
      ensures Scans(scan, data, prefix)
    {
      var rest := set k | k in data && prefix <= k;
      scan := [];
      while rest != {}
        invariant forall k :: k in scan || k in rest <==> k in data && prefix <= k
        decreases rest
      {
        var k :| k in rest;
        scan := scan + [k];
        rest := rest - {k};
      }
    }

    /** delete_prefix: deletes in batches while scanning. */
    method DeletePrefix(prefix: string, exclude: set<string>, batchSize: int := 1000)
      modifies this
      ensures data == Purged(old(data), prefix, exclude)
    {
      var scan := Scan(prefix);
      DeleteScanned(scan, prefix, exclude, batchSize);
    }

    /** The batches, for any scan: a key may come more than once. */
    method DeleteScanned(scan: seq<string>, prefix: string, exclude: set<string>, batchSize: int)
      requires Scans(scan, data, prefix)
      modifies this
      ensures data == Purged(old(data), prefix, exclude)
    {
      var batchKeys: seq<string> := [];
      for i := 0 to |scan|
        invariant forall k :: k in batchKeys ==> k in scan[..i] && k !in exclude
        invariant forall k :: k in data ==> k in old(data) && (k in scan[..i] && k !in exclude ==> k in batchKeys)
        invariant forall k :: k in old(data) && !(k in scan[..i] && k !in exclude) ==> k in data
        invariant forall k :: k in data ==> data[k] == old(data)[k]
      {
        assert scan[..i + 1] == scan[..i] + [scan[i]];
        if scan[i] !in exclude {
          batchKeys := batchKeys + [scan[i]];
          if |batchKeys| >= batchSize {
            Delete(batchKeys);
            batchKeys := [];
          }
        }
      }
      assert scan[..|scan|] == scan;
      if batchKeys != [] {
        Delete(batchKeys);
      }
    }

    method GetPrefix(prefix: string) returns (keys: seq<string>)
      ensures Scans(keys, data, prefix)
    {
      keys := Scan(prefix);
    }
  }
}
