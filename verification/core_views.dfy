/** The license activation endpoint as a pure transition
    `(store, user, input, now) -> (response, store')`. */
module Activation {
  import opened Wrappers
  import opened Text
  import opened Accounts
  import opened Http

  const KeyRequired := Response(400, Error("Key is required."))
  const KeyNotFound := Response(404, Error("Invalid key provided."))
  const KeyTaken := Response(409, Error("This key is already used by another account."))
  const KeyAlreadyYours := Response(200, Message("You already have this key active."))
  const KeyExpired := Response(400, Error("This key has expired."))
  const KeyActivated := Response(200, Message("License activated successfully!"))

  /** Every key `u` owns becomes unowned; nothing else changes. Under the
      one-to-one relation that is at most one key, the user's old key. */
  function ReleaseKeysOf(store: KeyStore, u: UserId): (r: KeyStore)
    ensures r.Keys == store.Keys
    ensures !OwnsKey(r, u)
    ensures forall k :: k in store && store[k].owner != Some(u) ==> r[k] == store[k]
    ensures forall k :: k in store && store[k].owner == Some(u) ==> r[k] == store[k].(owner := None)
  {
    map k | k in store :: if store[k].owner == Some(u) then store[k].(owner := None) else store[k]
  }

  /** The request's key field, absent read as empty, with surrounding
      whitespace removed. */
  function TrimmedKey(input: Option<string>): (r: string)
    ensures r == [] || (!IsSpace(r[0]) && !IsSpace(r[|r| - 1]))
  {
    Strip(input.GetOr(""))
  }

  /** The activation endpoint. `input` is the request's `key` field (`None`
      when the field is absent, which reads as the empty string). */
  function Activate(store: KeyStore, u: UserId, input: Option<string>, now: Time): (out: (Response, KeyStore))
    ensures out.1 != store ==> out.0 == KeyActivated
    ensures out.0.status == 200 ==> out.0 == KeyActivated || out.0 == KeyAlreadyYours
    ensures out.0.status == 200 ==> var key := TrimmedKey(input);
              key in out.1 && out.1[key].owner == Some(u)
    ensures out.1.Keys == store.Keys
  {
    ActivateKey(store, u, TrimmedKey(input), now)
  }

  /** The endpoint's decisions once the key text has been trimmed. */
  function ActivateKey(store: KeyStore, u: UserId, key: string, now: Time): (out: (Response, KeyStore))
    ensures out.1 != store ==> out.0 == KeyActivated
    ensures out.0.status == 200 ==> out.0 == KeyActivated || out.0 == KeyAlreadyYours
    ensures out.0.status == 200 ==> key in out.1 && out.1[key].owner == Some(u)
    ensures out.1.Keys == store.Keys
  {
    if key == [] then (KeyRequired, store)
    else if key !in store then (KeyNotFound, store)
    else
      var record := store[key];
      if record.owner.Some? && record.owner != Some(u) then (KeyTaken, store)
      else if record.owner == Some(u) then (KeyAlreadyYours, store)
      else if record.end < now then (KeyExpired, store)
      else (KeyActivated, Claim(store, u, key))
  }

  /** The success path: `u`'s old key is released, then `key` is given to `u`. */
  function Claim(store: KeyStore, u: UserId, key: string): (r: KeyStore)
    requires key in store
    ensures r.Keys == store.Keys
    ensures r[key] == store[key].(owner := Some(u))
    ensures forall k :: k in store && k != key && store[k].owner == Some(u) ==> r[k] == store[k].(owner := None)
    ensures forall k :: k in store && k != key && store[k].owner != Some(u) ==> r[k] == store[k]
  {
    ReleaseKeysOf(store, u)[key := store[key].(owner := Some(u))]
  }

  /** The key is whitespace-trimmed before anything else looks at it. */
  lemma ActivateTrimsFirst(store: KeyStore, u: UserId, s: string, now: Time)
    ensures Activate(store, u, Some(s), now) == Activate(store, u, Some(Strip(s)), now)
  {
    StripIdempotent(s);
  }

  /** An absent, empty or all-whitespace key is refused with 400 and the
      store is untouched. */
  lemma BlankKeyRefused(store: KeyStore, u: UserId, input: Option<string>, now: Time)
    requires AllSpace(input.GetOr(""))
    ensures Activate(store, u, input, now) == (KeyRequired, store)
  {
    StripEmptyIffAllSpace(input.GetOr(""));
  }

  /** A key that names no stored key is refused with 404; nothing changes. */
  lemma UnknownKeyRefused(store: KeyStore, u: UserId, input: Option<string>, now: Time)
    requires !AllSpace(input.GetOr("")) && TrimmedKey(input) !in store
    ensures Activate(store, u, input, now) == (KeyNotFound, store)
  {
    StripEmptyIffAllSpace(input.GetOr(""));
  }

  /** A key owned by somebody else is refused with 409; nobody's ownership
      changes. */
  lemma ForeignKeyRefused(store: KeyStore, u: UserId, input: Option<string>, now: Time)
    requires TrimmedKey(input) != [] && TrimmedKey(input) in store
    requires store[TrimmedKey(input)].owner.Some? && store[TrimmedKey(input)].owner != Some(u)
    ensures Activate(store, u, input, now) == (KeyTaken, store)
  {
  }

  /** An unowned key whose end lies strictly before `now` is refused with
      400 and nothing changes. */
  lemma ExpiredKeyRefused(store: KeyStore, u: UserId, input: Option<string>, now: Time)
    requires TrimmedKey(input) != [] && TrimmedKey(input) in store
    requires store[TrimmedKey(input)].owner.None? && store[TrimmedKey(input)].end < now
    ensures Activate(store, u, input, now) == (KeyExpired, store)
  {
  }

  /** The expiry comparison is strict: an unowned key ending exactly at
      `now` is still activated. */
  lemma KeyEndingNowAccepted(store: KeyStore, u: UserId, input: Option<string>, now: Time)
    requires TrimmedKey(input) != [] && TrimmedKey(input) in store
    requires store[TrimmedKey(input)].owner.None? && store[TrimmedKey(input)].end == now
    ensures Activate(store, u, input, now).0 == KeyActivated
  {
  }

  /** Activation is idempotent: after any 200 answer, asking again answers
      "already yours" and changes nothing. */
  lemma {:induction false} ActivateIdempotent(store: KeyStore, u: UserId, input: Option<string>, now: Time, later: Time)
    requires Activate(store, u, input, now).0.status == 200
    ensures var store' := Activate(store, u, input, now).1;
            Activate(store', u, input, later) == (KeyAlreadyYours, store')
  {
    var key := TrimmedKey(input);
    assert key != [];
  }

  /** What a successful activation does: the key now belongs to `u`, every
      key `u` owned before is released, and every other key is untouched. */
  lemma ActivationEffect(store: KeyStore, u: UserId, input: Option<string>, now: Time)
    requires Activate(store, u, input, now).0 == KeyActivated
    ensures var key := TrimmedKey(input);
            var store' := Activate(store, u, input, now).1;
            && key in store && store[key].owner.None? && now <= store[key].end
            && store'[key] == store[key].(owner := Some(u))
            && (forall k :: k in store && k != key && store[k].owner == Some(u) ==>
                  store'[k] == store[k].(owner := None))
            && (forall k :: k in store && k != key && store[k].owner != Some(u) ==> store'[k] == store[k])
  {
  }

  /** Claiming an unowned key keeps the one-user-one-key relation. */
  lemma ClaimPreservesOneKeyPerUser(store: KeyStore, u: UserId, key: string)
    requires OneKeyPerUser(store)
    requires key in store && store[key].owner.None?
    ensures OneKeyPerUser(Claim(store, u, key))
  {
    var s' := Claim(store, u, key);
    forall k1, k2 | k1 in s' && k2 in s' && s'[k1].owner.Some? && s'[k1].owner == s'[k2].owner
      ensures k1 == k2
    {
      if k1 != key && k2 != key {
        assert store[k1].owner == s'[k1].owner;
        assert store[k2].owner == s'[k2].owner;
      }
    }
  }

  /** Every transition keeps the one-user-one-key relation. */
  lemma ActivatePreservesOneKeyPerUser(store: KeyStore, u: UserId, input: Option<string>, now: Time)
    requires OneKeyPerUser(store)
    ensures OneKeyPerUser(Activate(store, u, input, now).1)
  {
    var key := TrimmedKey(input);
    if Activate(store, u, input, now).1 != store {
      ClaimPreservesOneKeyPerUser(store, u, key);
    }
  }

  /** The requester ends up owning the activated key and no other. */
  lemma ActivationLeavesOneKey(store: KeyStore, u: UserId, input: Option<string>, now: Time)
    requires Activate(store, u, input, now).0 == KeyActivated
    ensures var store' := Activate(store, u, input, now).1;
            forall k :: k in store' && store'[k].owner == Some(u) <==> k == TrimmedKey(input)
  {
  }
}
