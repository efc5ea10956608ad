/** The Redis keys of the route registry and the cluster slot they hash to. */
module RouteKeys {
  import opened Text

  /** `%d` of a non-negative number. */
  function Itoa(n: nat): (s: string)
    ensures s != ""
    ensures forall i :: 0 <= i < |s| ==> '0' <= s[i] <= '9'
  {
    (if n < 10 then "" else Itoa(n / 10)) + ["0123456789"[n % 10]]
  }

  lemma DigitInjective(m: nat, n: nat)
    requires m < 10 && n < 10
    ensures "0123456789"[m] == "0123456789"[n] ==> m == n
  {
  }

  lemma {:induction false} ItoaInjective(m: nat, n: nat)
    requires Itoa(m) == Itoa(n)
    ensures m == n
  {
    var a, b := Itoa(m), Itoa(n);
    assert m % 10 == n % 10 by { DigitInjective(m % 10, n % 10); }
    assert a[..|a| - 1] == b[..|b| - 1];
    assert a[..|a| - 1] == if m < 10 then "" else Itoa(m / 10);
    assert b[..|b| - 1] == if n < 10 then "" else Itoa(n / 10);
    if m >= 10 {
      ItoaInjective(m / 10, n / 10);
    }
  }

  /** The number a text of digits stands for. */
  function Atoi(s: string): int {
    if s == "" then 0 else 10 * Atoi(s[..|s| - 1]) + (s[|s| - 1] as int - '0' as int)
  }

  /** Printing gives the decimal, without leading zeros. */
  lemma {:induction false} ItoaIsDecimal(n: nat)
    ensures Atoi(Itoa(n)) == n
    ensures Itoa(n)[0] == '0' ==> Itoa(n) == "0"
  {
    var s := Itoa(n);
    assert s[..|s| - 1] == if n < 10 then "" else Itoa(n / 10);
    DigitIs(n % 10);
    if n >= 10 {
      ItoaIsDecimal(n / 10);
      assert s[0] == Itoa(n / 10)[0];
      assert Atoi("0") == 0;
    }
  }

  lemma DigitIs(d: nat)
    requires d < 10
    ensures "0123456789"[d] as int == '0' as int + d
  {
  }

  const USER_ROUTE_KEY_PREFIX := "kim:gateway:user_route"
  const USER_EXPIRE_KEY_PREFIX := "kim:gateway:user_expire"

  function UserRouteKey(bucket: nat, userID: string): string {
    USER_ROUTE_KEY_PREFIX + ":" + "{" + Itoa(bucket) + "}" + (":" + userID)
  }

  function UserExpireKey(bucket: nat): string {
    USER_EXPIRE_KEY_PREFIX + ":" + "{" + Itoa(bucket) + "}"
  }

  /** The formats of both keys. */
  lemma {:induction false} KeyFormats(bucket: nat, userID: string)
    ensures UserRouteKey(bucket, userID) == "kim:gateway:user_route:{" + Itoa(bucket) + "}:" + userID
    ensures UserExpireKey(bucket) == "kim:gateway:user_expire:{" + Itoa(bucket) + "}"
  {
  }

  /** A route key names one bucket and one user, whatever characters the user id holds. */
  lemma UserRouteKeyInjective(b: nat, u: string, c: nat, v: string)
    requires UserRouteKey(b, u) == UserRouteKey(c, v)
    ensures b == c && u == v
  {
    var p := USER_ROUTE_KEY_PREFIX + ":" + "{";
    var s, t := UserRouteKey(b, u), UserRouteKey(c, v);
    assert s == p + (Itoa(b) + ['}'] + (":" + u));
    assert t == p + (Itoa(c) + ['}'] + (":" + v));
    assert s[|p|..] == Itoa(b) + ['}'] + (":" + u);
    assert t[|p|..] == Itoa(c) + ['}'] + (":" + v);
    CutUnique(Itoa(b), '}', ":" + u, Itoa(c), ":" + v);
    assert u == (":" + u)[1..] && v == (":" + v)[1..];
    ItoaInjective(b, c);
  }

  lemma UserExpireKeyInjective(b: nat, c: nat)
    requires UserExpireKey(b) == UserExpireKey(c)
    ensures b == c
  {
    var p := USER_EXPIRE_KEY_PREFIX + ":" + "{";
    assert UserExpireKey(b) == p + (Itoa(b) + "}");
    assert UserExpireKey(c) == p + (Itoa(c) + "}");
    assert UserExpireKey(b)[|p|..] == Itoa(b) + ['}'] + "";
    assert UserExpireKey(c)[|p|..] == Itoa(c) + ['}'] + "";
    CutUnique(Itoa(b), '}', "", Itoa(c), "");
    ItoaInjective(b, c);
  }

  /** Hashes and sorted sets never meet under one key. */
  lemma RouteKeyIsNotExpireKey(b: nat, u: string, c: nat)
    ensures UserRouteKey(b, u) != UserExpireKey(c)
  {
    assert UserRouteKey(b, u)[17] == 'r';
    assert UserExpireKey(c)[17] == 'e';
  }

  /** The part of a key that Redis Cluster hashes: what stands between the first `{` and the
      first `}` after it, unless that is missing or empty. */
  function HashTag(key: string): string {
    var open := Find(key, '{');
    if open == |key| then key else
      var rest := key[open + 1..];
      var n := Find(rest, '}');
      if n == |rest| || n == 0 then key else rest[..n]
  }

  lemma HashTagOfTagged(prefix: string, tag: string, tail: string)
    requires '{' !in prefix && '}' !in tag && tag != ""
    ensures HashTag(prefix + "{" + tag + "}" + tail) == tag
  {
    var key := prefix + "{" + tag + "}" + tail;
    var open := Find(key, '{');
    assert key[|prefix|] == '{';
    assert forall k :: 0 <= k < |prefix| ==> key[k] == prefix[k];
    assert open == |prefix|;
    var rest := key[open + 1..];
    assert rest == tag + "}" + tail;
    assert rest[|tag|] == '}';
    assert forall k :: 0 <= k < |tag| ==> rest[k] == tag[k];
    assert Find(rest, '}') == |tag|;
  }

  /** The key holds a bracketed part, its first. */
  predicate Bracketed(key: string, prefix: string, tag: string, tail: string) {
    key == prefix + "{" + tag + "}" + tail && '{' !in prefix && '}' !in tag
  }

  /** A key without such a part, or with an empty one, hashes as a whole. */
  lemma HashTagOtherwise(key: string)
    requires forall prefix, tag, tail :: Bracketed(key, prefix, tag, tail) ==> tag == ""
    ensures HashTag(key) == key
  {
    var open := Find(key, '{');
    if open < |key| {
      var rest := key[open + 1..];
      var n := Find(rest, '}');
      if n < |rest| {
        assert rest == rest[..n] + "}" + rest[n + 1..];
        assert key == key[..open] + "{" + rest;
        assert key[..open] + "{" + rest == key[..open] + "{" + rest[..n] + "}" + rest[n + 1..];
        assert Bracketed(key, key[..open], rest[..n], rest[n + 1..]);
      }
    }
  }

  lemma {:induction false} RouteKeyTag(bucket: nat, userID: string)
    ensures HashTag(UserRouteKey(bucket, userID)) == Itoa(bucket)
  {
    hide HashTag;
    assert '{' !in USER_ROUTE_KEY_PREFIX + ":";
    HashTagOfTagged(USER_ROUTE_KEY_PREFIX + ":", Itoa(bucket), ":" + userID);
  }

  lemma {:induction false} ExpireKeyTag(bucket: nat)
    ensures HashTag(UserExpireKey(bucket)) == Itoa(bucket)
  {
    hide HashTag;
    assert '{' !in USER_EXPIRE_KEY_PREFIX + ":";
    HashTagOfTagged(USER_EXPIRE_KEY_PREFIX + ":", Itoa(bucket), "");
    assert UserExpireKey(bucket) == USER_EXPIRE_KEY_PREFIX + ":" + "{" + Itoa(bucket) + "}" + "";
  }

  /** Both keys of a register script hash by the bucket's decimal alone, so one slot holds
      them, whatever braces or colons the user id contains. */
  lemma {:induction false} RegisterKeysShareSlot(bucket: nat, userID: string)
    ensures HashTag(UserRouteKey(bucket, userID)) == HashTag(UserExpireKey(bucket)) == Itoa(bucket)
  {
    RouteKeyTag(bucket, userID);
    ExpireKeyTag(bucket);
  }
}
