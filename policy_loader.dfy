/**
 * policy/policy_loader.py: the active crypto policy is the default policy with each of its keys
 * overridden by a string-valued entry of the policy file, if there is one. The file read and
 * `json.load` are abstracted to their outcome: `None` when the file is missing or not valid JSON
 * (the loader then falls back to `{}`), `Some(obj)` for a JSON object.
 */
module PolicyLoader {
  import opened Common

  /** A value of the parsed policy file: a JSON string, or anything else JSON can hold. */
  datatype FileValue = Str(s: string) | NonString

  /** The keys of DEFAULT_POLICY, in dict order. */
  const DefaultKeys: seq<string> := ["kem", "signature", "hash"]

  const DefaultPolicy: map<string, string> :=
    map["kem" := "Kyber768", "signature" := "Dilithium3", "hash" := "SHAKE256"]

  /** _load_policy_file: the parsed object, or `{}` when loading failed. */
  function LoadPolicyFile(parsed: Option<map<string, FileValue>>): map<string, FileValue>
  {
    match parsed
    case None => map[]
    case Some(obj) => obj
  }

  /** Whether the file overrides key `k`: it is present and holds a string. */
  predicate Overrides(file: map<string, FileValue>, k: string)
  {
    k in file && file[k].Str?
  }

  /** The merged policy, key by key: the file's string if it overrides the key, the default otherwise. */
  function MergedPolicy(file: map<string, FileValue>): map<string, string>
  {
    map k | k in DefaultPolicy :: if Overrides(file, k) then file[k].s else DefaultPolicy[k]
  }

  /** The policy after the merge loop has visited the first `i` default keys. */
  function MergedPrefix(file: map<string, FileValue>, i: nat): map<string, string>
    requires i <= |DefaultKeys|
  {
    if i == 0 then DefaultPolicy
    else
      var key := DefaultKeys[i - 1];
      var before := MergedPrefix(file, i - 1);
      if Overrides(file, key) then before[key := file[key].s] else before
  }

  /** After `i` steps, a default key holds the file's string iff the loop has visited it and the file overrides it. */
  lemma {:induction false} MergedPrefixAt(file: map<string, FileValue>, i: nat, k: string)
    requires i <= |DefaultKeys| && k in DefaultPolicy
    ensures MergedPrefix(file, i).Keys == DefaultPolicy.Keys
    ensures MergedPrefix(file, i)[k]
            == if k in DefaultKeys[..i] && Overrides(file, k) then file[k].s else DefaultPolicy[k]
  {
    if i > 0 {
      MergedPrefixAt(file, i - 1, k);
      assert DefaultKeys[..i] == DefaultKeys[..i - 1] + [DefaultKeys[i - 1]];
      assert DefaultKeys[i - 1] in DefaultPolicy;
    }
  }

  /** Visiting all three default keys in order gives the merged policy. */
  lemma MergedPrefixComplete(file: map<string, FileValue>)
    ensures MergedPrefix(file, |DefaultKeys|) == MergedPolicy(file)
  {
    var m := MergedPrefix(file, |DefaultKeys|);
    assert DefaultKeys[..|DefaultKeys|] == DefaultKeys;
    forall k | k in DefaultPolicy
      ensures k in m && m[k] == MergedPolicy(file)[k]
    {
      MergedPrefixAt(file, |DefaultKeys|, k);
      assert k in DefaultKeys;
    }
    MergedPrefixAt(file, |DefaultKeys|, "kem");
  }

  /**
   * get_crypto_policy: start from a copy of the defaults and overwrite, for each default key in
   * turn, the entries the file overrides.
   */
  method GetCryptoPolicy(parsed: Option<map<string, FileValue>>) returns (policy: map<string, string>)
    ensures policy == MergedPolicy(LoadPolicyFile(parsed))
  {
    var file := LoadPolicyFile(parsed);
    policy := DefaultPolicy;
    var i := 0;
    while i < |DefaultKeys|
      invariant 0 <= i <= |DefaultKeys|
      invariant policy == MergedPrefix(file, i)
    {
      var key := DefaultKeys[i];
      if key in file && file[key].Str? {
        policy := policy[key := file[key].s];
      }
      i := i + 1;
    }
    MergedPrefixComplete(file);
  }

  /** get_kem: the `kem` entry of the active policy. */
  method GetKem(parsed: Option<map<string, FileValue>>) returns (kem: string)
    ensures kem == MergedPolicy(LoadPolicyFile(parsed))["kem"]
  {
    var policy := GetCryptoPolicy(parsed);
    kem := policy["kem"];
  }

  /** get_signature: the `signature` entry of the active policy. */
  method GetSignature(parsed: Option<map<string, FileValue>>) returns (signature: string)
    ensures signature == MergedPolicy(LoadPolicyFile(parsed))["signature"]
  {
    var policy := GetCryptoPolicy(parsed);
    signature := policy["signature"];
  }

  /** get_hash: the `hash` entry of the active policy. */
  method GetHash(parsed: Option<map<string, FileValue>>) returns (hash: string)
    ensures hash == MergedPolicy(LoadPolicyFile(parsed))["hash"]
  {
    var policy := GetCryptoPolicy(parsed);
    hash := policy["hash"];
  }

  /** The policy has exactly the three keys `kem`, `signature` and `hash`, whatever the file holds. */
  lemma PolicyKeys(file: map<string, FileValue>)
    ensures MergedPolicy(file).Keys == {"kem", "signature", "hash"}
  {
    assert forall k :: k in DefaultPolicy <==> k in {"kem", "signature", "hash"};
  }

  /** A missing or invalid file gives the defaults Kyber768, Dilithium3 and SHAKE256. */
  lemma MissingFileGivesDefaults()
    ensures MergedPolicy(LoadPolicyFile(None)) == DefaultPolicy
    ensures DefaultPolicy["kem"] == "Kyber768" && DefaultPolicy["signature"] == "Dilithium3"
    ensures DefaultPolicy["hash"] == "SHAKE256"
  {
  }

  /**
   * For each default key the file's value wins exactly when it is present and a string;
   * otherwise the default stays.
   */
  lemma FileValueWins(file: map<string, FileValue>, k: string)
    requires k in DefaultPolicy
    ensures k in MergedPolicy(file)
    ensures (k in file && file[k].Str?) ==> MergedPolicy(file)[k] == file[k].s
    ensures !(k in file && file[k].Str?) ==> MergedPolicy(file)[k] == DefaultPolicy[k]
  {
  }

  /** Entries of the file under keys outside the default set change nothing. */
  lemma UnknownKeysIgnored(file: map<string, FileValue>, k: string, v: FileValue)
    requires k !in DefaultPolicy
    ensures MergedPolicy(file[k := v]) == MergedPolicy(file)
    ensures MergedPolicy(file - {k}) == MergedPolicy(file)
  {
  }
}
