/**
 * `hashPassword` and `verifyPassword`. SHA-256 is a parameter of the model
 * (`sha256` maps a password to its digest bytes); nothing is assumed about it.
 */
module Passwords {
  import opened Wrappers
  import opened JsValues
  import Hex
  import opened UserStore

  /** The algorithm tag every hash written by the service starts with. */
  const Sha256Tag: string := "sha256:"

  /** No stored hash, or an empty one: the account is still in its bootstrap state. */
  predicate Bootstrap(record: UserRow)
  {
    record.passwordHash.None? || record.passwordHash.value == []
  }

  /** A stored hash the service compares as a SHA-256 digest. */
  predicate Tagged(record: UserRow)
  {
    !Bootstrap(record) && Sha256Tag <= record.passwordHash.value
  }

  /** The digest bytes a tagged hash stands for, as `Buffer.from(…, 'hex')` reads them. */
  function StoredDigest(record: UserRow): seq<Hex.Byte>
    requires Tagged(record)
  {
    Hex.Decode(record.passwordHash.value[|Sha256Tag|..])
  }

  /** `hashPassword(password)`: the tag, then the hex digest. */
  function HashPassword(sha256: string -> seq<Hex.Byte>, password: string): (h: string)
    ensures Sha256Tag <= h
    ensures Hex.Decode(h[|Sha256Tag|..]) == sha256(password)
    // an argument of the sqlite3 command can carry it
    ensures '\0' !in h
  {
    var h := Sha256Tag + Hex.Encode(sha256(password));
    assert forall k :: |Sha256Tag| <= k < |h| ==> Hex.DigitValue(h[k]).Some?;
    assert h[|Sha256Tag|..] == Hex.Encode(sha256(password));
    Hex.DecodeEncode(sha256(password));
    h
  }

  /**
   * `verifyPassword(record, candidate)`. `Err(TypeError)` is the exception
   * `hash.update` throws when a non-string candidate reaches the digest branch.
   */
  function VerifyPassword(sha256: string -> seq<Hex.Byte>, record: UserRow, candidate: Json): (r: Result<bool, Fault>)
    // a falsy candidate (the empty string among them) never verifies
    ensures !Truthy(Some(candidate)) ==> r == Ok(false)
    // bootstrap: the candidate must be the stored login itself, case and all
    ensures Bootstrap(record) ==> (r == Ok(true) <==> candidate == JStr(record.login) && record.login != [])
    // digest: equal digests verify, anything else (a length mismatch included) is a plain false
    ensures Tagged(record) && candidate.JStr? && candidate.s != [] ==>
      (r == Ok(true) <==> StoredDigest(record) == sha256(candidate.s))
    ensures Tagged(record) && candidate.JStr? ==> r.Ok?
    // any other stored value is a plaintext password
    ensures !Bootstrap(record) && !Tagged(record) ==> (r == Ok(true) <==> candidate == JStr(record.passwordHash.value))
    ensures r.Err? ==> r.error == TypeError && Tagged(record) && !candidate.JStr?
    // and every truthy non-string reaching the digest does throw
    ensures Tagged(record) && Truthy(Some(candidate)) && !candidate.JStr? ==> r == Err(TypeError)
  {
    if !Truthy(Some(candidate)) then Ok(false)
    else if Bootstrap(record) then Ok(candidate == JStr(record.login))
    else
      var stored := record.passwordHash.value;
      if Sha256Tag <= stored then
        match candidate
        case JStr(p) =>
          var expected := Hex.Decode(stored[|Sha256Tag|..]);
          var computed := Hex.Decode(Hex.Encode(sha256(p)));
          Hex.DecodeEncode(sha256(p));
          // timingSafeEqual throws on unequal lengths, and the catch answers false
          Ok(|expected| == |computed| && expected == computed)
        case _ => Err(TypeError)
      else Ok(candidate == JStr(stored))
  }

  /** Round trip: a record holding `hashPassword(p)` verifies `p`, for every non-empty `p`. */
  lemma HashThenVerify(sha256: string -> seq<Hex.Byte>, record: UserRow, p: string)
    requires p != []
    ensures VerifyPassword(sha256, record.(passwordHash := Some(HashPassword(sha256, p))), JStr(p)) == Ok(true)
  {
    var h := HashPassword(sha256, p);
    assert Tagged(record.(passwordHash := Some(h)));
  }

  /** After `hashPassword(p)` is stored, any password with a different digest is refused. */
  lemma HashRejectsOthers(sha256: string -> seq<Hex.Byte>, record: UserRow, p: string, q: string)
    requires sha256(q) != sha256(p)
    ensures VerifyPassword(sha256, record.(passwordHash := Some(HashPassword(sha256, p))), JStr(q)) == Ok(false)
  {
    var h := HashPassword(sha256, p);
    assert Tagged(record.(passwordHash := Some(h)));
  }

  /**
   * Node's lenient hex reading: text after the digest that does not start
   * with a pair of hex digits is ignored, so such a hash still verifies.
   */
  lemma TrailingTextIgnored(sha256: string -> seq<Hex.Byte>, record: UserRow, p: string, rest: string)
    requires p != []
    requires Hex.Decode(rest) == []
    ensures VerifyPassword(sha256, record.(passwordHash := Some(HashPassword(sha256, p) + rest)), JStr(p)) == Ok(true)
  {
    var h := HashPassword(sha256, p) + rest;
    assert Sha256Tag <= h;
    assert h[|Sha256Tag|..] == Hex.Encode(sha256(p)) + rest;
    Hex.DecodeEncodeAppend(sha256(p), rest);
    assert sha256(p) + [] == sha256(p);
  }
}
