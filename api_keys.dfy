/**
 * The key store administration of `api_keys.py`: a table from API key to tier name,
 * to which keys are added under a validated tier and from which keys are deleted.
 *
 * The JSON file becomes the field `KeyManager.keys`; the console input becomes the
 * `tierInput` and `keyInput` parameters and the random key generator becomes the
 * `newKey` parameter.
 */
module ApiKeys {
  import opened Text

  /** The tiers a key may be given (api_keys.py:6). */
  const ValidTiers: seq<string> := ["free", "pro", "ultra", "mega"]

  /** Every stored tier is one of `ValidTiers`. */
  ghost predicate TiersValid(keys: map<string, string>) {
    forall k :: k in keys ==> keys[k] in ValidTiers
  }

  /** `input(...).strip().lower()`: the tier as it is compared and stored. */
  function NormalizeTier(input: string): (r: string)
    ensures |r| == |Strip(input)| <= |input|
    ensures r == [] || (!IsSpace(r[0]) && !IsSpace(r[|r| - 1]))
    ensures forall i :: 0 <= i < |r| ==> !IsUpper(r[i])
  {
    Lower(Strip(input))
  }

  /** A valid tier typed in any letter case and with any surrounding whitespace is
      accepted as that tier. */
  lemma NormalizeTierAcceptsPadding(tier: string, typed: string, before: string, after: string)
    requires tier in ValidTiers
    requires Lower(typed) == tier
    requires forall i :: 0 <= i < |before| ==> IsSpace(before[i])
    requires forall i :: 0 <= i < |after| ==> IsSpace(after[i])
    ensures NormalizeTier(before + typed + after) == tier
  {
    ValidTierIsWord(tier);
    LowerOfPadded(tier, typed, before, after);
  }

  /** A valid tier is a non-empty word of lower-case letters. */
  lemma ValidTierIsWord(tier: string)
    requires tier in ValidTiers
    ensures tier != [] && NoSpace(tier) && Lower(tier) == tier
  {
    assert LettersOnlyLower(tier);
    LowerWordUnchanged(tier);
  }

  /** The stored key table and the two operations that change it. */
  class KeyManager {
    /** The contents of the key file. */
    var keys: map<string, string>

    constructor (stored: map<string, string>)
      ensures keys == stored
    {
      keys := stored;
    }

    /** `add_key()`: an invalid tier changes nothing; a valid one maps the new key to it,
        replacing any tier the key had, and leaves every other key as it was. */
    method AddKey(tierInput: string, newKey: string) returns (added: bool)
      modifies this
      ensures added <==> NormalizeTier(tierInput) in ValidTiers
      ensures keys == if added then old(keys)[newKey := NormalizeTier(tierInput)] else old(keys)
      ensures TiersValid(old(keys)) ==> TiersValid(keys)
    {
      var tier := NormalizeTier(tierInput);
      if tier !in ValidTiers {
        return false;
      }
      var table := keys;
      table := table[newKey := tier];
      keys := table;
      return true;
    }

    /** `delete_key()`: a present key is removed and nothing else; an absent one changes
        nothing. */
    method DeleteKey(keyInput: string) returns (deleted: bool)
      modifies this
      ensures deleted <==> Strip(keyInput) in old(keys)
      ensures keys == old(keys) - {Strip(keyInput)}
      ensures !deleted ==> keys == old(keys)
      ensures TiersValid(old(keys)) ==> TiersValid(keys)
    {
      var key := Strip(keyInput);
      var table := keys;
      if key in table {
        table := table - {key};
        keys := table;
        return true;
      }
      return false;
    }
  }
}
