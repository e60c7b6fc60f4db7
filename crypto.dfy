/** The two libraries the authentication code calls and does not implement:
    bcrypt (password hashing) and a JSON Web Token library (RFC 7519). They
    enter the model as a record of functions handed to every operation that
    calls them; `Sound` collects what the model assumes of them. */
module Crypto {
  import opened Schema

  /** `expiresIn: "7d"`: the `exp` claim (section 4.1.4 of RFC 7519) lies seven
      days, in seconds, after the issue time. */
  const TokenLifetime: int := 7 * 24 * 60 * 60

  datatype Primitives = Primitives(
    /** `bcrypt.hashSync(password, 10)` under the salt it draws. */
    hash: (string, string) -> string,
    /** `bcrypt.compareSync(password, passwordHash)`. */
    compare: (string, string) -> bool,
    /** `jwt.sign({ userId }, secret, { expiresIn: "7d" })` at a clock reading. */
    sign: (nat, int) -> string,
    /** The `userId` of `jwt.verify(token, secret)` at a clock reading, or None
        where it throws (bad signature, malformed, expired). */
    verify: (string, int) -> Option<nat>)

  /** What the model assumes of the libraries. */
  ghost predicate Sound(c: Primitives)
  {
    // a password matches every hash computed from it
    && (forall p: string, salt: string :: c.compare(p, c.hash(p, salt)))
    // a token signed at `iat` verifies to its subject exactly while the clock is before `exp`
    && (forall id: nat, iat: int, now: int :: c.verify(c.sign(id, iat), now) == if now < iat + TokenLifetime then Some(id) else None)
    // a compact JWS is base64url text and dots: it never holds a space
    && (forall id: nat, iat: int :: ' ' !in c.sign(id, iat))
    // an empty token is refused ("jwt must be provided")
    && (forall now: int :: c.verify("", now) == None)
  }

  // ---------------------------------------------------------------------------
  // The assumptions are consistent: a toy library meets them.

  ghost function Unary(n: nat, ch: char): (s: string)
    ensures |s| == n && forall i :: 0 <= i < n ==> s[i] == ch
  {
    seq(n, _ => ch)
  }

  ghost function ToySign(id: nat, iat: int): string
  {
    Unary(id, 'a') + "." + (if iat >= 0 then Unary(iat, 'b') else Unary(-iat, 'c'))
  }

  lemma ToySignInjective(id1: nat, iat1: int, id2: nat, iat2: int)
    requires ToySign(id1, iat1) == ToySign(id2, iat2)
    ensures id1 == id2 && iat1 == iat2
  {
    var s := ToySign(id1, iat1);
    assert s[id1] == '.' && forall k :: 0 <= k < id1 ==> s[k] == 'a';
    assert s[id2] == '.' && forall k :: 0 <= k < id2 ==> s[k] == 'a';
    assert id1 == id2;
    var t1 := if iat1 >= 0 then Unary(iat1, 'b') else Unary(-iat1, 'c');
    var t2 := if iat2 >= 0 then Unary(iat2, 'b') else Unary(-iat2, 'c');
    assert t1 == s[id1 + 1..] == t2;
    if |t1| > 0 {
      assert t1[0] == t2[0];
    }
  }

  lemma SoundIsSatisfiable()
    ensures exists c :: Sound(c)
  {
    var sign := (id: nat, iat: int) => ToySign(id, iat);
    var verify := (t: string, now: int) =>
      if exists id: nat, iat: int :: ToySign(id, iat) == t then
        var id: nat, iat: int :| ToySign(id, iat) == t;
        if now < iat + TokenLifetime then Some(id) else None
      else None;
    var c := Primitives((p: string, salt: string) => p, (p: string, h: string) => p == h, sign, verify);
    forall id: nat, iat: int, now: int
      ensures c.verify(c.sign(id, iat), now) == if now < iat + TokenLifetime then Some(id) else None
    {
      var t := ToySign(id, iat);
      var id': nat, iat': int :| ToySign(id', iat') == t && c.verify(t, now) == if now < iat' + TokenLifetime then Some(id') else None;
      ToySignInjective(id, iat, id', iat');
    }
    forall id: nat, iat: int ensures ' ' !in c.sign(id, iat) {
      var t := ToySign(id, iat);
      forall i | 0 <= i < |t| ensures t[i] != ' ' {
        if i < id { assert t[i] == 'a'; } else if i == id { assert t[i] == '.'; } else { assert t[i] == 'b' || t[i] == 'c'; }
      }
    }
    forall now: int ensures c.verify("", now) == None {
      forall id: nat, iat: int ensures ToySign(id, iat) != "" {
        assert |ToySign(id, iat)| >= 1;
      }
    }
    assert Sound(c);
  }
}
