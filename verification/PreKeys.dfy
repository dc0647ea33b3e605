/** The key server: one-time prekeys handed out once each, and signed prekeys rotated, in
    the manner of section 3.3 of the X3DH specification. Each operation is one atomic step
    over the key tables; a failed step changes nothing. */
module PreKeys {
  import opened Prelude
  import Transactions

  /** What a device uploads. */
  datatype PublicPart = PublicPart(user: Uuid, device: Uuid, keyID: int, publicKey: Uuid, uploadedAt: Time)

  datatype Consumption = Consumption(at: Time, byUser: Uuid, byDevice: Uuid)

  /** A one-time prekey row; null consumption columns mean it is available. */
  datatype OneTimeKey = OneTimeKey(part: PublicPart, consumed: Option<Consumption>)

  type OneTimeKeys = map<Uuid, OneTimeKey>

  datatype SignedKey = SignedKey(user: Uuid, device: Uuid, keyID: int, publicKey: Uuid, createdAt: Time, active: bool)

  type SignedKeys = map<Uuid, SignedKey>

  datatype KeyError = NotFound | Forbidden | InvalidInput | StoreFailure

  /** A row to upload; the insert writes its consumption columns as they come. */
  datatype Upload = Upload(id: Uuid, part: PublicPart, consumed: Option<Consumption>)

  datatype Bundle = Bundle(user: Uuid, device: Uuid, identityKey: Uuid, signedKeyID: int, signedKey: Uuid,
                           oneTimeKey: Option<PublicPart>)

  predicate IsAvailable(keys: OneTimeKeys, user: Uuid, device: Uuid, id: Uuid) {
    id in keys && keys[id].part.user == user && keys[id].part.device == device && keys[id].consumed.None?
  }

  function Available(keys: OneTimeKeys, user: Uuid, device: Uuid): set<Uuid> {
    set id | id in keys && IsAvailable(keys, user, device, id)
  }

  ghost predicate IsOldest(keys: OneTimeKeys, user: Uuid, device: Uuid, id: Uuid) {
    && id in Available(keys, user, device)
    && forall k :: k in Available(keys, user, device) ==> keys[id].part.uploadedAt <= keys[k].part.uploadedAt
  }

  function Taken(keys: OneTimeKeys, id: Uuid, c: Consumption): OneTimeKeys
    requires id in keys
  {
    keys[id := keys[id].(consumed := Some(c))]
  }

  /** The primary key and the UNIQUE (device_id, key_id) constraint, for a row to insert. */
  predicate Collides(keys: OneTimeKeys, u: Upload) {
    u.id in keys ||
    exists k :: k in keys && keys[k].part.device == u.part.device && keys[k].part.keyID == u.part.keyID
  }

  /** The table after inserting the uploads in order. */
  function Inserted(keys: OneTimeKeys, uploads: seq<Upload>): OneTimeKeys {
    if uploads == [] then keys
    else
      var last := uploads[|uploads| - 1];
      Inserted(keys, uploads[..|uploads| - 1])[last.id := OneTimeKey(last.part, last.consumed)]
  }

  /** Every insert of the batch finds its place among the rows before it. */
  predicate EachFits(keys: OneTimeKeys, uploads: seq<Upload>, faults: set<nat>) {
    uploads == [] ||
    var n := |uploads| - 1;
    EachFits(keys, uploads[..n], faults) && n !in faults && !Collides(Inserted(keys, uploads[..n]), uploads[n])
  }

  predicate IsStale(k: OneTimeKey, olderThan: Time) {
    k.consumed.Some? && k.consumed.value.at < olderThan
  }

  function Purged(keys: OneTimeKeys, olderThan: Time): OneTimeKeys {
    map id | id in keys && !IsStale(keys[id], olderThan) :: keys[id]
  }

  predicate IsActiveFor(keys: SignedKeys, user: Uuid, device: Uuid, id: Uuid) {
    id in keys && keys[id].user == user && keys[id].device == device && keys[id].active
  }

  /** A possible answer to the active-key query: the newest active key; ties are open. */
  ghost predicate IsCurrent(keys: SignedKeys, user: Uuid, device: Uuid, id: Uuid) {
    && IsActiveFor(keys, user, device, id)
    && forall k :: IsActiveFor(keys, user, device, k) ==> keys[k].createdAt <= keys[id].createdAt
  }

  function Deactivated(keys: SignedKeys, user: Uuid, device: Uuid): SignedKeys {
    map id | id in keys :: if IsActiveFor(keys, user, device, id) then keys[id].(active := false) else keys[id]
  }

  predicate KeyIDTaken(keys: SignedKeys, newKey: SignedKey) {
    exists k :: k in keys && keys[k].device == newKey.device && keys[k].keyID == newKey.keyID
  }

  class EncryptionRepository {
    var oneTimeKeys: OneTimeKeys
    var signedKeys: SignedKeys
    var identityKeys: map<(Uuid, Uuid), Uuid>
    var activeDevices: set<(Uuid, Uuid)>

    constructor ()
      ensures oneTimeKeys == map[] && signedKeys == map[] && identityKeys == map[] && activeDevices == {}
    {
      oneTimeKeys, signedKeys, identityKeys, activeDevices := map[], map[], map[], {};
    }

    /** `faults` names the inserts that fail of themselves. */
    method UploadOneTimePreKeys(uploads: seq<Upload>, f: Transactions.Faults, faults: set<nat>) returns (r: Result<(), KeyError>)
      modifies this`oneTimeKeys
      ensures uploads != [] ==>
        Transactions.Outcome(Transactions.Fresh(oneTimeKeys), r) ==
        Transactions.WithTx(Transactions.Pool, Transactions.Fresh(old(oneTimeKeys)), f, StoreFailure,
                            Transactions.InTurn(UploadEach(uploads, faults)))
      ensures r.Ok? ==> oneTimeKeys == Inserted(old(oneTimeKeys), uploads)
      ensures r.Ok? <==> uploads == [] || (!f.begin && !f.commit && EachFits(old(oneTimeKeys), uploads, faults))
      ensures r.Err? ==> oneTimeKeys == old(oneTimeKeys)
    {
      if |uploads| == 0 {
        return Ok(());
      }
      UploadsAllOrNothing(oneTimeKeys, uploads, f, faults);
      if f.begin {
        return Err(StoreFailure);
      }
      var o := InsertInTurn(oneTimeKeys, uploads, faults);
      o := Transactions.Close(oneTimeKeys, f, StoreFailure, o);
      oneTimeKeys, r := o.session.tables, o.result;
    }

    /** The oldest available key of the device, marked as consumed. The returned row is the
        one read before the mark. */
    method ConsumeOneTimePreKey(user: Uuid, device: Uuid, c: Consumption, fails: bool)
      returns (r: Result<(Uuid, OneTimeKey), KeyError>)
      modifies this`oneTimeKeys
      ensures r.Ok? <==> !fails && Available(old(oneTimeKeys), user, device) != {}
      ensures r.Ok? ==> IsOldest(old(oneTimeKeys), user, device, r.value.0) && r.value.1 == old(oneTimeKeys)[r.value.0]
      ensures r.Ok? ==> r.value.1.part.user == user && r.value.1.part.device == device && r.value.1.consumed == None
      ensures r.Ok? ==> oneTimeKeys == Taken(old(oneTimeKeys), r.value.0, c)
      ensures r.Ok? ==> var keys := old(oneTimeKeys); forall k ::
        k in keys && keys[k].part.user == user && keys[k].part.device == device && keys[k].consumed == None ==>
          r.value.1.part.uploadedAt <= keys[k].part.uploadedAt
      ensures r.Err? ==> oneTimeKeys == old(oneTimeKeys) && r.error == if fails then StoreFailure else NotFound
    {
      if fails {
        return Err(StoreFailure);
      }
      var left := Available(oneTimeKeys, user, device);
      if left == {} {
        return Err(NotFound);
      }
      ghost var all := left;
      var oldest :| oldest in left;
      while left != {}
        invariant left <= all && oldest in all && oneTimeKeys == old(oneTimeKeys)
        invariant forall k :: k in all - left ==> oneTimeKeys[oldest].part.uploadedAt <= oneTimeKeys[k].part.uploadedAt
        decreases left
      {
        var k :| k in left;
        left := left - {k};
        if oneTimeKeys[k].part.uploadedAt < oneTimeKeys[oldest].part.uploadedAt {
          oldest := k;
        }
      }
      r := Ok((oldest, oneTimeKeys[oldest]));
      oneTimeKeys := oneTimeKeys[oldest := oneTimeKeys[oldest].(consumed := Some(c))];
    }

    method GetAvailablePreKeyCount(user: Uuid, device: Uuid, fails: bool) returns (r: Result<nat, KeyError>)
      ensures r == if fails then Err(StoreFailure) else Ok(|Available(oneTimeKeys, user, device)|)
    {
      if fails {
        return Err(StoreFailure);
      }
      return Ok(|Available(oneTimeKeys, user, device)|);
    }

    method DeleteConsumedPreKeys(olderThan: Time, fails: bool) returns (r: Result<nat, KeyError>)
      modifies this`oneTimeKeys
      ensures r.Ok? <==> !fails
      ensures r.Ok? ==> oneTimeKeys == Purged(old(oneTimeKeys), olderThan) && r.value == |old(oneTimeKeys)| - |oneTimeKeys|
      ensures r.Err? ==> oneTimeKeys == old(oneTimeKeys)
    {
      if fails {
        return Err(StoreFailure);
      }
      var stale := set id | id in oneTimeKeys && IsStale(oneTimeKeys[id], olderThan);
      assert Purged(oneTimeKeys, olderThan) == oneTimeKeys - stale;
      assert (oneTimeKeys - stale).Keys == oneTimeKeys.Keys - stale;
      r := Ok(|stale|);
      oneTimeKeys := oneTimeKeys - stale;
    }

    method GetActiveSignedPreKey(user: Uuid, device: Uuid, fails: bool) returns (r: Result<(Uuid, SignedKey), KeyError>)
      ensures r.Ok? ==> IsCurrent(signedKeys, user, device, r.value.0) && r.value.1 == signedKeys[r.value.0]
      ensures r.Ok? <==> !fails && exists id :: IsActiveFor(signedKeys, user, device, id)
      ensures r.Ok? ==> r.value.1.user == user && r.value.1.device == device && r.value.1.active
      ensures r.Ok? ==> forall k ::
        k in signedKeys && signedKeys[k].user == user && signedKeys[k].device == device && signedKeys[k].active ==>
          signedKeys[k].createdAt <= r.value.1.createdAt
      ensures r.Err? ==> r.error == if fails then StoreFailure else NotFound
    {
      if fails {
        return Err(StoreFailure);
      }
      var left := set id | id in signedKeys && IsActiveFor(signedKeys, user, device, id);
      if left == {} {
        assert forall id :: IsActiveFor(signedKeys, user, device, id) ==> id in left;
        return Err(NotFound);
      }
      ghost var all := left;
      var newest :| newest in left;
      while left != {}
        invariant left <= all && newest in all
        invariant forall k :: k in all - left ==> signedKeys[k].createdAt <= signedKeys[newest].createdAt
        decreases left
      {
        var k :| k in left;
        left := left - {k};
        if signedKeys[newest].createdAt < signedKeys[k].createdAt {
          newest := k;
        }
      }
      assert forall id :: IsActiveFor(signedKeys, user, device, id) ==> id in all;
      r := Ok((newest, signedKeys[newest]));
    }

    method RotateSignedPreKey(user: Uuid, device: Uuid, id: Uuid, newKey: SignedKey, f: Transactions.Faults,
                              deactivateFails: bool, insertFails: bool)
      returns (r: Result<(), KeyError>)
      modifies this`signedKeys
      ensures Transactions.Outcome(Transactions.Fresh(signedKeys), r) ==
              Transactions.WithTx(Transactions.Pool, Transactions.Fresh(old(signedKeys)), f, StoreFailure,
                                  RotateBody(user, device, id, newKey, deactivateFails, insertFails))
      ensures r.Ok? <==> !f.begin && !f.commit && !deactivateFails && !insertFails &&
                         id !in old(signedKeys) && !KeyIDTaken(old(signedKeys), newKey)
      ensures r.Ok? ==> signedKeys == Deactivated(old(signedKeys), user, device)[id := newKey]
      ensures r.Err? ==> signedKeys == old(signedKeys)
    {
      RotatesAllOrNothing(signedKeys, user, device, id, newKey, f, deactivateFails, insertFails);
      if f.begin {
        return Err(StoreFailure);
      }
      var o := RotateInTurn(signedKeys, user, device, id, newKey, deactivateFails, insertFails);
      o := Transactions.Close(signedKeys, f, StoreFailure, o);
      signedKeys, r := o.session.tables, o.result;
    }
  }

  // ---------------------------------------------------------------- the transaction bodies

  function UploadStatement(u: Upload, fails: bool): Transactions.Body<OneTimeKeys, KeyError> {
    Transactions.Statement((keys: OneTimeKeys) =>
      if fails || Collides(keys, u) then Transactions.Failed(StoreFailure)
      else Transactions.Applied(keys[u.id := OneTimeKey(u.part, u.consumed)]))
  }

  function UploadEach(uploads: seq<Upload>, faults: set<nat>): seq<Transactions.Body<OneTimeKeys, KeyError>> {
    seq(|uploads|, i requires 0 <= i < |uploads| => UploadStatement(uploads[i], i in faults))
  }

  method InsertInTurn(tx: OneTimeKeys, uploads: seq<Upload>, faults: set<nat>)
    returns (o: Transactions.Outcome<OneTimeKeys, KeyError>)
    ensures o == Transactions.Run(Transactions.InTurn(UploadEach(uploads, faults)), Transactions.Fresh(tx), StoreFailure)
  {
    var keys := tx;
    ghost var each := UploadEach(uploads, faults);
    for i := 0 to |uploads|
      invariant Transactions.Run(Transactions.InTurn(each[..i]), Transactions.Fresh(tx), StoreFailure) ==
                Transactions.Outcome(Transactions.Fresh(keys), Ok(()))
    {
      Transactions.InTurnSnoc(each, i);
      var u := uploads[i];
      if i in faults || Collides(keys, u) {
        Transactions.FirstErrorEnds(each, i + 1, Transactions.Fresh(tx), StoreFailure);
        return Transactions.Outcome(Transactions.Session(keys, true), Err(StoreFailure));
      }
      keys := keys[u.id := OneTimeKey(u.part, u.consumed)];
    }
    assert each[..|each|] == each;
    o := Transactions.Outcome(Transactions.Fresh(keys), Ok(()));
  }

  lemma UploadStep(keys: OneTimeKeys, u: Upload, fails: bool)
    ensures var o := Transactions.Run(UploadStatement(u, fails), Transactions.Fresh(keys), StoreFailure);
      && (o.result.Ok? <==> !fails && !Collides(keys, u))
      && (o.result.Ok? ==> o.session == Transactions.Fresh(keys[u.id := OneTimeKey(u.part, u.consumed)]))
  {
  }

  lemma {:induction false} UploadEachOutcome(keys: OneTimeKeys, uploads: seq<Upload>, faults: set<nat>)
    ensures var o := Transactions.Run(Transactions.InTurn(UploadEach(uploads, faults)), Transactions.Fresh(keys), StoreFailure);
      && (o.result.Ok? <==> EachFits(keys, uploads, faults))
      && (o.result.Ok? ==> o.session == Transactions.Fresh(Inserted(keys, uploads)))
  {
    if uploads != [] {
      var n := |uploads| - 1;
      var front, each := uploads[..n], UploadEach(uploads, faults);
      UploadEachOutcome(keys, front, faults);
      UploadStep(Inserted(keys, front), uploads[n], n in faults);
      assert each[..n] == UploadEach(front, faults);
      assert each[n] == UploadStatement(uploads[n], n in faults);
    }
  }

  /** An upload succeeds if and only if nothing about its transaction fails and every row
      finds its place; then all rows are in, and otherwise none. */
  lemma UploadsAllOrNothing(keys: OneTimeKeys, uploads: seq<Upload>, f: Transactions.Faults, faults: set<nat>)
    ensures var o := Transactions.WithTx(Transactions.Pool, Transactions.Fresh(keys), f, StoreFailure,
                                         Transactions.InTurn(UploadEach(uploads, faults)));
      && (o.result.Ok? <==> !f.begin && !f.commit && EachFits(keys, uploads, faults))
      && o.session == Transactions.Fresh(if o.result.Ok? then Inserted(keys, uploads) else keys)
  {
    var each := UploadEach(uploads, faults);
    UploadEachOutcome(keys, uploads, faults);
    Transactions.InTurnPassesOn(each);
    Transactions.AllOrNothing(keys, f, StoreFailure, Transactions.InTurn(each));
  }

  function RotateBody(user: Uuid, device: Uuid, id: Uuid, newKey: SignedKey, deactivateFails: bool, insertFails: bool)
    : Transactions.Body<SignedKeys, KeyError>
  {
    Transactions.Then(
      Transactions.Statement((keys: SignedKeys) =>
        if deactivateFails then Transactions.Failed(StoreFailure)
        else Transactions.Applied(Deactivated(keys, user, device))),
      Transactions.Statement((keys: SignedKeys) =>
        if insertFails || id in keys || KeyIDTaken(keys, newKey) then Transactions.Failed(StoreFailure)
        else Transactions.Applied(keys[id := newKey])))
  }

  method RotateInTurn(tx: SignedKeys, user: Uuid, device: Uuid, id: Uuid, newKey: SignedKey,
                      deactivateFails: bool, insertFails: bool)
    returns (o: Transactions.Outcome<SignedKeys, KeyError>)
    ensures o == Transactions.Run(RotateBody(user, device, id, newKey, deactivateFails, insertFails),
                                  Transactions.Fresh(tx), StoreFailure)
  {
    if deactivateFails {
      return Transactions.Outcome(Transactions.Session(tx, true), Err(StoreFailure));
    }
    var keys := map k | k in tx :: if IsActiveFor(tx, user, device, k) then tx[k].(active := false) else tx[k];
    assert keys == Deactivated(tx, user, device);
    if insertFails || id in keys || KeyIDTaken(keys, newKey) {
      return Transactions.Outcome(Transactions.Session(keys, true), Err(StoreFailure));
    }
    o := Transactions.Outcome(Transactions.Fresh(keys[id := newKey]), Ok(()));
  }

  /** A rotation succeeds if and only if nothing fails and the new row's ids are unused; else
      the old active set stays. */
  lemma RotatesAllOrNothing(keys: SignedKeys, user: Uuid, device: Uuid, id: Uuid, newKey: SignedKey, f: Transactions.Faults,
                            deactivateFails: bool, insertFails: bool)
    ensures var o := Transactions.WithTx(Transactions.Pool, Transactions.Fresh(keys), f, StoreFailure,
                                         RotateBody(user, device, id, newKey, deactivateFails, insertFails));
      && (o.result.Ok? <==> !f.begin && !f.commit && !deactivateFails && !insertFails &&
                            id !in keys && !KeyIDTaken(keys, newKey))
      && o.session == Transactions.Fresh(if o.result.Ok? then Deactivated(keys, user, device)[id := newKey] else keys)
  {
    var body := RotateBody(user, device, id, newKey, deactivateFails, insertFails);
    Transactions.AllOrNothing(keys, f, StoreFailure, body);
    var tx := Deactivated(keys, user, device);
    assert forall k :: k in keys ==>
      k in tx && tx[k].device == keys[k].device && tx[k].keyID == keys[k].keyID;
    if !deactivateFails {
      assert Transactions.Run(body, Transactions.Fresh(keys), StoreFailure) ==
             Transactions.Run(body.second, Transactions.Fresh(tx), StoreFailure);
    } else {
      assert Transactions.Run(body.first, Transactions.Fresh(keys), StoreFailure).result.Err?;
    }
  }

  /** Which reads and writes of a bundle request fail. */
  datatype Faults = Faults(owner: bool, identity: bool, signed: bool, consume: bool)

  class EncryptionService {
    const repo: EncryptionRepository

    constructor (r: EncryptionRepository)
      ensures repo == r
    {
      repo := r;
    }

    /** Either fails with the key store unchanged, or hands out the identity key, a current
        signed prekey, and a one-time prekey exactly when one was available, the oldest one,
        now marked as consumed by the caller. */
    method GetKeyBundle(user: Uuid, device: Uuid, consumer: Uuid, consumerDevice: Uuid, now: Time, f: Faults)
      returns (r: Result<Bundle, KeyError>)
      modifies repo`oneTimeKeys
      ensures r.Ok? <==>
        && !f.owner && (consumer, consumerDevice) in repo.activeDevices && user != consumer
        && !f.identity && (user, device) in repo.identityKeys
        && !f.signed && (exists id :: IsActiveFor(repo.signedKeys, user, device, id))
        && !f.consume
      ensures r.Err? ==> repo.oneTimeKeys == old(repo.oneTimeKeys)
      ensures r.Ok? ==>
        && r.value.user == user && r.value.device == device && r.value.identityKey == repo.identityKeys[(user, device)]
        && exists id :: IsCurrent(repo.signedKeys, user, device, id) &&
                        r.value.signedKeyID == repo.signedKeys[id].keyID && r.value.signedKey == repo.signedKeys[id].publicKey
      ensures r.Ok? && Available(old(repo.oneTimeKeys), user, device) == {} ==>
        r.value.oneTimeKey == None && repo.oneTimeKeys == old(repo.oneTimeKeys)
      ensures r.Ok? && Available(old(repo.oneTimeKeys), user, device) != {} ==>
        exists id :: IsOldest(old(repo.oneTimeKeys), user, device, id) &&
                     r.value.oneTimeKey == Some(old(repo.oneTimeKeys)[id].part) &&
                     repo.oneTimeKeys == Taken(old(repo.oneTimeKeys), id, Consumption(now, consumer, consumerDevice))
    {
      if f.owner {
        return Err(StoreFailure);
      }
      if (consumer, consumerDevice) !in repo.activeDevices {
        return Err(Forbidden);
      }
      if user == consumer {
        return Err(InvalidInput);
      }
      if f.identity {
        return Err(StoreFailure);
      }
      if (user, device) !in repo.identityKeys {
        return Err(NotFound);
      }
      var signed := repo.GetActiveSignedPreKey(user, device, f.signed);
      if signed.Err? {
        return Err(signed.error);
      }
      var bundle := Bundle(user, device, repo.identityKeys[(user, device)], signed.value.1.keyID, signed.value.1.publicKey, None);
      var prekey := repo.ConsumeOneTimePreKey(user, device, Consumption(now, consumer, consumerDevice), f.consume);
      if prekey.Ok? {
        bundle := bundle.(oneTimeKey := Some(prekey.value.1.part));
      }
      if prekey.Err? && prekey.error != NotFound {
        return Err(prekey.error);
      }
      assert IsActiveFor(repo.signedKeys, user, device, signed.value.0);
      return Ok(bundle);
    }

    /** A rotation followed by a bundle request for the same device. If the rotation succeeds
        with an active key of that device, the bundle, if there is one, carries the new key;
        if it fails, it carries a key that was current before. */
    method RotateThenBundle(user: Uuid, device: Uuid, id: Uuid, newKey: SignedKey, f: Transactions.Faults,
                            deactivateFails: bool, insertFails: bool, consumer: Uuid, consumerDevice: Uuid, now: Time, g: Faults)
      returns (rotated: Result<(), KeyError>, r: Result<Bundle, KeyError>)
      requires newKey.active && newKey.user == user && newKey.device == device
      modifies repo`signedKeys, repo`oneTimeKeys
      ensures rotated.Ok? && r.Ok? ==> r.value.signedKeyID == newKey.keyID && r.value.signedKey == newKey.publicKey
      ensures rotated.Err? && r.Ok? ==>
        exists k :: IsCurrent(old(repo.signedKeys), user, device, k) &&
                    r.value.signedKeyID == old(repo.signedKeys)[k].keyID && r.value.signedKey == old(repo.signedKeys)[k].publicKey
      ensures rotated.Ok? ==>
        (r.Ok? <==> !g.owner && (consumer, consumerDevice) in repo.activeDevices && user != consumer &&
                    !g.identity && (user, device) in repo.identityKeys && !g.signed && !g.consume)
    {
      rotated := repo.RotateSignedPreKey(user, device, id, newKey, f, deactivateFails, insertFails);
      ghost var before := old(repo.signedKeys);
      if rotated.Ok? {
        RotationTakesOver(before, user, device, id, newKey);
        assert IsActiveFor(repo.signedKeys, user, device, id);
      }
      r := GetKeyBundle(user, device, consumer, consumerDevice, now, g);
      assert rotated.Ok? ==> IsActiveFor(repo.signedKeys, user, device, id);
    }
  }

  /** After a rotation, the only key the active-key query can return for the device is the
      new one, whatever creation times say; it does return it exactly when the new row is
      active and filed under that same user and device. Otherwise the device has none. */
  lemma RotationTakesOver(keys: SignedKeys, user: Uuid, device: Uuid, id: Uuid, newKey: SignedKey)
    requires id !in keys
    ensures var after := Deactivated(keys, user, device)[id := newKey];
      && (forall k :: IsCurrent(after, user, device, k) ==> k == id)
      && (IsCurrent(after, user, device, id) <==> newKey.active && newKey.user == user && newKey.device == device)
      && (forall u: Uuid, d: Uuid, k: Uuid :: (u, d) != (user, device) && k != id ==>
            (IsActiveFor(after, u, d, k) <==> IsActiveFor(keys, u, d, k)))
  {
    var after := Deactivated(keys, user, device)[id := newKey];
    assert forall k :: k != id ==> !IsActiveFor(after, user, device, k);
  }

  /** A rotation changes nothing of an old row but its active flag, and that only for the
      device rotated. */
  lemma RotationKeepsRows(keys: SignedKeys, user: Uuid, device: Uuid, id: Uuid, newKey: SignedKey, k: Uuid)
    requires k in keys && id !in keys
    ensures var after := Deactivated(keys, user, device)[id := newKey];
      && k in after && after[k].(active := keys[k].active) == keys[k]
      && (after[k].active <==> keys[k].active && !(keys[k].user == user && keys[k].device == device))
      && after[id] == newKey
  {
  }

  // ---------------------------------------------------------------- which uploads fit

  /** The two rows could not both be stored. */
  predicate Clash(a: Upload, b: Upload) {
    a.id == b.id || (a.part.device == b.part.device && a.part.keyID == b.part.keyID)
  }

  predicate ClashesWith(keys: OneTimeKeys, u: Upload, k: Uuid) {
    k in keys && (k == u.id || (keys[k].part.device == u.part.device && keys[k].part.keyID == u.part.keyID))
  }

  /** Every row is new to the table and to the rows of the upload before it. */
  ghost predicate AllNew(keys: OneTimeKeys, uploads: seq<Upload>, faults: set<nat>) {
    && (forall i :: 0 <= i < |uploads| ==> i !in faults)
    && (forall i, k :: 0 <= i < |uploads| ==> !ClashesWith(keys, uploads[i], k))
    && (forall i, j :: 0 <= i < j < |uploads| ==> !Clash(uploads[i], uploads[j]))
  }

  lemma AllNewSnoc(keys: OneTimeKeys, uploads: seq<Upload>, faults: set<nat>)
    requires uploads != []
    ensures var n := |uploads| - 1;
      AllNew(keys, uploads, faults) <==>
        && AllNew(keys, uploads[..n], faults) && n !in faults
        && (forall k :: !ClashesWith(keys, uploads[n], k))
        && (forall i :: 0 <= i < n ==> !Clash(uploads[i], uploads[n]))
  {
    var n := |uploads| - 1;
    assert forall i :: 0 <= i < n ==> uploads[..n][i] == uploads[i];
    if AllNew(keys, uploads[..n], faults) && (forall i :: 0 <= i < n ==> !Clash(uploads[i], uploads[n])) {
      forall i, j | 0 <= i < j < |uploads|
        ensures !Clash(uploads[i], uploads[j])
      {
        if j < n {
          assert !Clash(uploads[..n][i], uploads[..n][j]);
        }
      }
    }
    if AllNew(keys, uploads, faults) {
      forall i, k | 0 <= i < n
        ensures !ClashesWith(keys, uploads[..n][i], k)
      {
        assert !ClashesWith(keys, uploads[i], k);
      }
    }
    if AllNew(keys, uploads[..n], faults) && n !in faults && (forall k :: !ClashesWith(keys, uploads[n], k)) {
      forall i, k | 0 <= i < |uploads|
        ensures !ClashesWith(keys, uploads[i], k)
      {
        if i < n {
          assert !ClashesWith(keys, uploads[..n][i], k);
        }
      }
    }
  }

  /** What the last row of an upload meets once the rows before it are in. */
  lemma CollidesExactly(keys: OneTimeKeys, front: seq<Upload>, faults: set<nat>, u: Upload)
    requires AllNew(keys, front, faults) && EachFits(keys, front, faults)
    ensures Collides(Inserted(keys, front), u) <==>
            (exists k :: ClashesWith(keys, u, k)) || (exists i :: 0 <= i < |front| && Clash(front[i], u))
  {
    var rows := Inserted(keys, front);
    forall k: Uuid
      ensures k in rows <==> k in keys || exists i :: 0 <= i < |front| && front[i].id == k
      ensures k in keys ==> rows[k] == keys[k]
    {
      InsertedRow(keys, front, faults, k);
    }
    forall i | 0 <= i < |front|
      ensures front[i].id in rows && rows[front[i].id].part == front[i].part
    {
      UploadedRow(keys, front, faults, i);
    }
    if k :| ClashesWith(keys, u, k) {
      assert k in rows;
    }
    if i :| 0 <= i < |front| && Clash(front[i], u) {
      assert front[i].id in rows;
    }
    if k :| k in rows && rows[k].part.device == u.part.device && rows[k].part.keyID == u.part.keyID {
      if k in keys {
        assert ClashesWith(keys, u, k);
      } else {
        var i :| 0 <= i < |front| && front[i].id == k;
        assert Clash(front[i], u);
      }
    }
    if u.id in rows {
      if u.id in keys {
        assert ClashesWith(keys, u, u.id);
      } else {
        var i :| 0 <= i < |front| && front[i].id == u.id;
        assert Clash(front[i], u);
      }
    }
  }

  lemma {:induction false} InsertedRow(keys: OneTimeKeys, uploads: seq<Upload>, faults: set<nat>, k: Uuid)
    requires EachFits(keys, uploads, faults)
    ensures k in Inserted(keys, uploads) <==> k in keys || exists i :: 0 <= i < |uploads| && uploads[i].id == k
    ensures k in keys ==> Inserted(keys, uploads)[k] == keys[k]
  {
    if uploads != [] {
      var n := |uploads| - 1;
      InsertedRow(keys, uploads[..n], faults, k);
      assert uploads[n].id == k ==> exists i :: 0 <= i < |uploads| && uploads[i].id == k;
      assert forall i :: 0 <= i < n ==> uploads[..n][i] == uploads[i];
      if k in keys {
        assert k in Inserted(keys, uploads[..n]) && uploads[n].id != k;
      }
    }
  }

  /** An upload fits if and only if no insert fails of itself and every row has an id and a
      key id of its device that neither the table nor another row of the upload has. */
  lemma {:induction false} FitsExactly(keys: OneTimeKeys, uploads: seq<Upload>, faults: set<nat>)
    ensures EachFits(keys, uploads, faults) <==> AllNew(keys, uploads, faults)
  {
    if uploads != [] {
      var n := |uploads| - 1;
      FitsExactly(keys, uploads[..n], faults);
      AllNewSnoc(keys, uploads, faults);
      if AllNew(keys, uploads[..n], faults) {
        CollidesExactly(keys, uploads[..n], faults, uploads[n]);
        assert forall i :: 0 <= i < n ==> uploads[..n][i] == uploads[i];
      }
    }
  }

  // ---------------------------------------------------------------- runs

  datatype Event =
    | UploadKeys(uploads: seq<Upload>)
    | Consume(user: Uuid, device: Uuid, id: Uuid, c: Consumption)
    | Purge(olderThan: Time)

  /** The table, every row ever uploaded, those that came already consumed, the rows handed
      out in order, the rows purged. */
  datatype World = World(keys: OneTimeKeys, uploaded: set<Uuid>, arrived: set<Uuid>, handedOut: seq<Uuid>, purged: set<Uuid>)

  function UploadIds(uploads: seq<Upload>): set<Uuid> {
    set i | 0 <= i < |uploads| :: uploads[i].id
  }

  /** Row ids are new; a consume takes what the query may return. */
  ghost predicate Enabled(w: World, e: Event) {
    match e
    case UploadKeys(uploads) => UploadIds(uploads) !! w.uploaded
    case Consume(user, device, id, _) => IsOldest(w.keys, user, device, id)
    case Purge(_) => true
  }

  function Apply(w: World, e: Event): World {
    match e
    case UploadKeys(uploads) =>
      w.(keys := Inserted(w.keys, uploads), uploaded := w.uploaded + UploadIds(uploads),
         arrived := w.arrived + Consumed(Inserted(w.keys, uploads)) * UploadIds(uploads))
    case Consume(_, _, id, c) => if id in w.keys then w.(keys := Taken(w.keys, id, c), handedOut := w.handedOut + [id]) else w
    case Purge(olderThan) =>
      w.(keys := Purged(w.keys, olderThan), purged := w.purged + (w.keys.Keys - Purged(w.keys, olderThan).Keys))
  }

  ghost predicate Feasible(w: World, es: seq<Event>)
    decreases |es|
  {
    es == [] || (Enabled(w, es[0]) && Feasible(Apply(w, es[0]), es[1..]))
  }

  function Run(w: World, es: seq<Event>): World
    decreases |es|
  {
    if es == [] then w else Run(Apply(w, es[0]), es[1..])
  }

  const Empty := World(map[], {}, {}, [], {})

  function Unconsumed(keys: OneTimeKeys): set<Uuid> {
    set id | id in keys && keys[id].consumed.None?
  }

  function Consumed(keys: OneTimeKeys): set<Uuid> {
    set id | id in keys && keys[id].consumed.Some?
  }

  ghost predicate NoRepeats(s: seq<Uuid>) {
    forall i, j :: 0 <= i < j < |s| ==> s[i] != s[j]
  }

  /** Every uploaded row is available, consumed or purged, and exactly one of these; a row
      is consumed or purged exactly when it was handed out, once, or came consumed. */
  ghost predicate Inv(w: World) {
    && w.uploaded == w.keys.Keys + w.purged && w.keys.Keys !! w.purged
    && NoRepeats(w.handedOut)
    && (forall id :: id in w.handedOut ==> id !in w.arrived)
    && (forall id :: id in w.handedOut || id in w.arrived <==> id in Consumed(w.keys) + w.purged)
  }

  lemma {:induction false} InsertedRows(keys: OneTimeKeys, uploads: seq<Upload>)
    requires UploadIds(uploads) !! keys.Keys
    ensures Inserted(keys, uploads).Keys == keys.Keys + UploadIds(uploads)
    ensures forall id :: id in keys ==> Inserted(keys, uploads)[id] == keys[id]
  {
    if uploads != [] {
      var front, last := uploads[..|uploads| - 1], uploads[|uploads| - 1];
      assert UploadIds(uploads) == UploadIds(front) + {last.id} by {
        assert forall i :: 0 <= i < |front| ==> front[i].id == uploads[i].id;
        assert uploads[|front|].id == last.id;
      }
      InsertedRows(keys, front);
    }
  }

  /** A successful upload files each row under its own id, as it came. */
  lemma {:induction false} UploadedRow(keys: OneTimeKeys, uploads: seq<Upload>, faults: set<nat>, i: nat)
    requires EachFits(keys, uploads, faults) && i < |uploads|
    ensures var u := uploads[i];
      u.id in Inserted(keys, uploads) && Inserted(keys, uploads)[u.id] == OneTimeKey(u.part, u.consumed)
  {
    var n := |uploads| - 1;
    if i < n {
      UploadedRow(keys, uploads[..n], faults, i);
    }
  }

  lemma UploadKeeps(w: World, uploads: seq<Upload>)
    requires Inv(w) && UploadIds(uploads) !! w.uploaded
    ensures Inv(Apply(w, UploadKeys(uploads)))
  {
    InsertedRows(w.keys, uploads);
    var keys' := Inserted(w.keys, uploads);
    assert Consumed(keys') == Consumed(w.keys) + Consumed(keys') * UploadIds(uploads);
  }

  lemma StepKeeps(w: World, e: Event)
    requires Inv(w) && Enabled(w, e)
    ensures Inv(Apply(w, e))
  {
    match e
    case UploadKeys(uploads) =>
      UploadKeeps(w, uploads);
    case Consume(_, _, id, c) =>
      assert id !in w.handedOut && id !in w.arrived;
      assert Consumed(Apply(w, e).keys) == Consumed(w.keys) + {id};
    case Purge(olderThan) =>
      var gone := w.keys.Keys - Purged(w.keys, olderThan).Keys;
      assert Consumed(Apply(w, e).keys) + Apply(w, e).purged == Consumed(w.keys) + w.purged;
  }

  /** Over any run no row is handed out twice, and every uploaded row is accounted for. */
  lemma {:induction false} RunKeeps(w: World, es: seq<Event>)
    requires Inv(w) && Feasible(w, es)
    ensures Inv(Run(w, es))
    ensures NoRepeats(Run(w, es).handedOut) && Run(w, es).uploaded == Run(w, es).keys.Keys + Run(w, es).purged
    decreases |es|
  {
    if es != [] {
      StepKeeps(w, es[0]);
      RunKeeps(Apply(w, es[0]), es[1..]);
    }
  }

  lemma RowsAddUp(w: World)
    requires Inv(w)
    ensures |w.uploaded| == |Unconsumed(w.keys)| + |Consumed(w.keys)| + |w.purged|
  {
    assert w.keys.Keys == Unconsumed(w.keys) + Consumed(w.keys);
    assert |w.keys.Keys| == |Unconsumed(w.keys)| + |Consumed(w.keys)|;
  }

  lemma HandoutsAddUp(w: World)
    requires Inv(w)
    ensures |w.handedOut| + |w.arrived| == |Consumed(w.keys)| + |w.purged|
  {
    var gone := Consumed(w.keys) + w.purged;
    assert |gone| == |Consumed(w.keys)| + |w.purged|;
    DistinctSize(w.handedOut, gone - w.arrived);
    assert gone == (gone - w.arrived) + w.arrived;
  }

  /** Uploaded rows number exactly available plus consumed plus purged, and exactly the
      latter two were handed out or came consumed. */
  lemma KeysConserved(es: seq<Event>)
    requires Feasible(Empty, es)
    ensures var w := Run(Empty, es);
      && NoRepeats(w.handedOut)
      && |w.uploaded| == |Unconsumed(w.keys)| + |Consumed(w.keys)| + |w.purged|
      && |w.handedOut| + |w.arrived| == |Consumed(w.keys)| + |w.purged|
  {
    RunKeeps(Empty, es);
    RowsAddUp(Run(Empty, es));
    HandoutsAddUp(Run(Empty, es));
  }

  lemma {:induction false} DistinctSize(s: seq<Uuid>, ids: set<Uuid>)
    requires NoRepeats(s) && forall id :: id in s <==> id in ids
    ensures |s| == |ids|
  {
    if s != [] {
      var front, last := s[..|s| - 1], s[|s| - 1];
      assert s == front + [last];
      DistinctSize(front, ids - {last});
    }
  }

  /** Handing out a key takes one from the count of its own device and from no other, a
      purge changes no device's count. */
  lemma CountsAfterSteps(keys: OneTimeKeys, user: Uuid, device: Uuid, id: Uuid, c: Consumption, olderThan: Time, u: Uuid, d: Uuid)
    requires id in Available(keys, user, device)
    ensures |Available(Taken(keys, id, c), u, d)| == |Available(keys, u, d)| - if (u, d) == (user, device) then 1 else 0
    ensures |Available(Purged(keys, olderThan), u, d)| == |Available(keys, u, d)|
  {
    assert Available(Taken(keys, id, c), u, d) == Available(keys, u, d) - {id};
    assert Available(Purged(keys, olderThan), u, d) == Available(keys, u, d);
  }

  /** A purge never touches an available key, and takes exactly the stale consumed ones. */
  lemma PurgeSparesAvailable(keys: OneTimeKeys, olderThan: Time)
    ensures Unconsumed(Purged(keys, olderThan)) == Unconsumed(keys)
    ensures forall id :: id in keys && id !in Purged(keys, olderThan) <==>
      id in keys && keys[id].consumed.Some? && keys[id].consumed.value.at < olderThan
    ensures forall id :: id in Purged(keys, olderThan) ==> Purged(keys, olderThan)[id] == keys[id]
  {
  }

  /** A consumed row stays as it is until it is purged. */
  lemma {:induction false} ConsumedStays(w: World, es: seq<Event>, id: Uuid)
    requires Inv(w) && Feasible(w, es) && id in w.keys && w.keys[id].consumed.Some?
    ensures id in Run(w, es).keys ==> Run(w, es).keys[id] == w.keys[id]
    decreases |es|
  {
    if es != [] {
      StepKeeps(w, es[0]);
      ConsumedStep(w, es[0], id);
      if id in Apply(w, es[0]).keys {
        ConsumedStays(Apply(w, es[0]), es[1..], id);
      } else {
        GoneStays(Apply(w, es[0]), es[1..], id);
      }
    }
  }

  lemma ConsumedStep(w: World, e: Event, id: Uuid)
    requires Inv(w) && Enabled(w, e) && id in w.keys && w.keys[id].consumed.Some?
    ensures id in Apply(w, e).keys ==> Apply(w, e).keys[id] == w.keys[id]
    ensures id !in Apply(w, e).keys ==> id in Apply(w, e).purged
  {
    if e.UploadKeys? {
      InsertedRows(w.keys, e.uploads);
    }
  }

  lemma {:induction false} GoneStays(w: World, es: seq<Event>, id: Uuid)
    requires Inv(w) && Feasible(w, es) && id in w.purged
    ensures id !in Run(w, es).keys
    decreases |es|
  {
    if es != [] {
      StepKeeps(w, es[0]);
      GoneStays(Apply(w, es[0]), es[1..], id);
    }
  }

  /** The k-th event hands out this row to this consumer. */
  predicate HandsOut(es: seq<Event>, k: nat, id: Uuid, part: PublicPart, c: Consumption) {
    k < |es| && es[k] == Consume(part.user, part.device, id, c)
  }

  /** Over every run an available row keeps its key and, while stored, is either available or
      carries exactly the time, user and device of the one event that handed it out. */
  lemma {:induction false} ConsumedByHandout(w: World, es: seq<Event>, id: Uuid)
    requires Inv(w) && Feasible(w, es) && id in w.keys && w.keys[id].consumed.None? && id in Run(w, es).keys
    ensures var row := Run(w, es).keys[id];
      && row.part == w.keys[id].part
      && (row.consumed == None || exists k: nat, at: Time, u: Uuid, d: Uuid ::
            row.consumed == Some(Consumption(at, u, d)) && HandsOut(es, k, id, row.part, Consumption(at, u, d)))
    decreases |es|
  {
    if es != [] {
      var e, w' := es[0], Apply(w, es[0]);
      StepKeeps(w, e);
      AvailableStep(w, e, id);
      if w'.keys[id].consumed.None? {
        ConsumedByHandout(w', es[1..], id);
        var row := Run(w, es).keys[id];
        if k: nat, at: Time, u: Uuid, d: Uuid :|
          row.consumed == Some(Consumption(at, u, d)) && HandsOut(es[1..], k, id, row.part, Consumption(at, u, d)) {
          assert HandsOut(es, k + 1, id, row.part, Consumption(at, u, d));
        }
      } else {
        ConsumedStays(w', es[1..], id);
        assert HandsOut(es, 0, id, w.keys[id].part, Consumption(e.c.at, e.c.byUser, e.c.byDevice));
      }
    }
  }

  lemma AvailableStep(w: World, e: Event, id: Uuid)
    requires Inv(w) && Enabled(w, e) && id in w.keys && w.keys[id].consumed.None?
    ensures id in Apply(w, e).keys && Apply(w, e).keys[id].part == w.keys[id].part
    ensures Apply(w, e).keys[id].consumed == None ||
            (e.Consume? && e.id == id && e.user == w.keys[id].part.user && e.device == w.keys[id].part.device &&
             Apply(w, e).keys[id].consumed == Some(Consumption(e.c.at, e.c.byUser, e.c.byDevice)))
  {
    if e.UploadKeys? {
      InsertedRows(w.keys, e.uploads);
    }
  }
}
