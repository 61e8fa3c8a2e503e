/**
 * The referral code kept in the browser's `localStorage` under one fixed
 * key. Storage is a map from keys to strings; the operations return the
 * new map instead of mutating a global.
 */
module LocalCache {
  import opened Wrappers

  const ReferralKey: string := "farmcash_referral"

  type Storage = map<string, string>

  /** JavaScript truthiness of a possibly-null string. */
  predicate Truthy(code: Option<string>)
  {
    code.Some? && code.value != ""
  }

  /** Every key but `ReferralKey` holds the same entry in both storages. */
  ghost predicate OtherKeysUnchanged(before: Storage, after: Storage)
  {
    forall k | k != ReferralKey :: (k in after <==> k in before) && (k in before ==> after[k] == before[k])
  }

  /** `getStoredReferralCode()`: `localStorage.getItem`, null when the key is absent. */
  function GetStoredReferralCode(storage: Storage): Option<string>
  {
    if ReferralKey in storage then Some(storage[ReferralKey]) else None
  }

  /** `storeReferralCode(code)`: writes only a truthy code; null and "" change nothing. */
  function StoreReferralCode(storage: Storage, code: Option<string>): (after: Storage)
    ensures Truthy(code) ==> GetStoredReferralCode(after) == code
    ensures !Truthy(code) ==> after == storage
    ensures OtherKeysUnchanged(storage, after)
  {
    if Truthy(code) then storage[ReferralKey := code.value] else storage
  }

  /** `clearStoredReferralCode()`: removes the key and nothing else. */
  function ClearStoredReferralCode(storage: Storage): (after: Storage)
    ensures GetStoredReferralCode(after) == None
    ensures OtherKeysUnchanged(storage, after)
  {
    storage - {ReferralKey}
  }

  /** The cache's life cycle: a stored code reads back until it is cleared, then nothing does. */
  lemma StoreReadClear(storage: Storage, code: string)
    requires code != ""
    ensures GetStoredReferralCode(StoreReferralCode(storage, Some(code))) == Some(code)
    ensures GetStoredReferralCode(ClearStoredReferralCode(StoreReferralCode(storage, Some(code)))) == None
    ensures StoreReferralCode(StoreReferralCode(storage, Some(code)), Some(code)) == StoreReferralCode(storage, Some(code))
  {
  }
}
