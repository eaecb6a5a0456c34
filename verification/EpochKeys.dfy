/**
 The issuer's per-epoch signing keys in manifest mode (token-issuer/epoch-keys.js). `importKey`
 stands for importing a private key: its fingerprint, or None when it is not RSA-2048.
 */
module EpochKeys {
  import opened Prelude
  import opened EpochWindow

  /** A manifest entry; `privateKey` is None when it is not a string. */
  datatype ManifestKey = ManifestKey(epoch: int, privateKey: Option<string>)

  datatype Manifest = Manifest(version: int, keys: seq<ManifestKey>)

  datatype SigningKey = SigningKey(material: string, fingerprint: string)

  type Importer = string -> Option<string>

  /** Nothing is left after String.prototype.trim. */
  predicate IsBlank(s: string) {
    forall i :: 0 <= i < |s| ==> IsTrimmed(s[i] as int)
  }

  /** ECMAScript's white space and line terminators. */
  predicate IsTrimmed(c: int) {
    || 0x09 <= c <= 0x0d || c == 0x20 || c == 0xa0 || c == 0x1680 || 0x2000 <= c <= 0x200a
    || c == 0x2028 || c == 0x2029 || c == 0x202f || c == 0x205f || c == 0x3000 || c == 0xfeff
  }

  predicate RecordOk(k: ManifestKey, now: nat) {
    IsLive(k.epoch, now) && k.privateKey.Some? && !IsBlank(k.privateKey.value)
  }

  /** One or two usable keys for different live epochs. */
  ghost predicate ManifestOk(m: Manifest, now: nat) {
    && m.version == 1 && 1 <= |m.keys| <= 2
    && (forall i :: 0 <= i < |m.keys| ==> RecordOk(m.keys[i], now))
    && (forall i, j :: 0 <= i < j < |m.keys| ==> m.keys[i].epoch != m.keys[j].epoch)
  }

  /** Manifest validation, which collects the epochs seen while it maps the records. */
  method ValidateManifest(m: Manifest, now: nat) returns (ok: bool)
    ensures ok <==> ManifestOk(m, now)
  {
    if m.version != 1 || |m.keys| < 1 || |m.keys| > 2 { return false; }
    var epochs: set<int> := {};
    for i := 0 to |m.keys|
      invariant epochs == set k | 0 <= k < i :: m.keys[k].epoch
      invariant forall k :: 0 <= k < i ==> RecordOk(m.keys[k], now)
      invariant forall j, k :: 0 <= j < k < i ==> m.keys[j].epoch != m.keys[k].epoch
    {
      var k := m.keys[i];
      if !RecordOk(k, now) { return false; }
      if k.epoch in epochs { return false; }
      epochs := epochs + {k.epoch};
    }
    return true;
  }

  /** Every key imports and no two are the same RSA key. */
  ghost predicate Importable(importKey: Importer, keys: seq<ManifestKey>) {
    && (forall i :: 0 <= i < |keys| ==> keys[i].privateKey.Some? && importKey(keys[i].privateKey.value).Some?)
    && (forall i, j :: 0 <= i < j < |keys| ==> importKey(keys[i].privateKey.value) != importKey(keys[j].privateKey.value))
  }

  ghost predicate IsKeyTable(importKey: Importer, keys: seq<ManifestKey>, table: map<int, SigningKey>) {
    && (forall i :: 0 <= i < |keys| ==> keys[i].epoch in table && keys[i].privateKey == Some(table[keys[i].epoch].material))
    && (forall e :: e in table ==> importKey(table[e].material) == Some(table[e].fingerprint)
                                   && exists i :: 0 <= i < |keys| && keys[i].epoch == e)
  }

  /** Imports every key and compares the number of distinct fingerprints with the number of keys. */
  method ImportAll(importKey: Importer, keys: seq<ManifestKey>) returns (ok: bool)
    requires forall i :: 0 <= i < |keys| ==> keys[i].privateKey.Some?
    ensures ok <==> Importable(importKey, keys)
  {
    var seen: set<Option<string>> := {};
    for i := 0 to |keys|
      invariant seen == set k | 0 <= k < i :: importKey(keys[k].privateKey.value)
      invariant Importable(importKey, keys[..i])
    {
      var fingerprint := importKey(keys[i].privateKey.value);
      assert keys[..i + 1] == keys[..i] + [keys[i]];
      if fingerprint.None? { return false; }
      if fingerprint in seen { return false; }
      assert forall k :: 0 <= k < i ==> importKey(keys[k].privateKey.value) in seen;
      seen := seen + {fingerprint};
    }
    assert keys[..|keys|] == keys;
    return true;
  }

  method BuildTable(importKey: Importer, keys: seq<ManifestKey>) returns (table: map<int, SigningKey>)
    requires Importable(importKey, keys)
    requires forall i, j :: 0 <= i < j < |keys| ==> keys[i].epoch != keys[j].epoch
    ensures IsKeyTable(importKey, keys, table)
  {
    table := map[];
    for i := 0 to |keys|
      invariant IsKeyTable(importKey, keys[..i], table)
    {
      var k := keys[i];
      assert keys[..i + 1] == keys[..i] + [k];
      ghost var longer := keys[..i + 1];
      table := table[k.epoch := SigningKey(k.privateKey.value, importKey(k.privateKey.value).value)];
      forall e | e in table ensures exists j :: 0 <= j < |longer| && longer[j].epoch == e {
        if e == k.epoch {
          assert longer[i].epoch == e;
        } else {
          var j :| 0 <= j < i && keys[..i][j].epoch == e;
          assert longer[j].epoch == e;
        }
      }
    }
    assert keys[..|keys|] == keys;
  }

  /** `load`: all keys import and are distinct, or none is usable. */
  method Load(importKey: Importer, keys: seq<ManifestKey>) returns (table: Option<map<int, SigningKey>>)
    requires forall i :: 0 <= i < |keys| ==> keys[i].privateKey.Some?
    requires forall i, j :: 0 <= i < j < |keys| ==> keys[i].epoch != keys[j].epoch
    ensures table.Some? <==> Importable(importKey, keys)
    ensures table.Some? ==> IsKeyTable(importKey, keys, table.value)
  {
    var ok := ImportAll(importKey, keys);
    if !ok { return None; }
    var built := BuildTable(importKey, keys);
    return Some(built);
  }

  /** Different epochs never share a signing key, so a key's epoch can be told from the key. */
  lemma EpochsHaveDistinctKeys(importKey: Importer, keys: seq<ManifestKey>, table: map<int, SigningKey>, a: int, b: int)
    requires Importable(importKey, keys) && IsKeyTable(importKey, keys, table)
    requires a in table && b in table && a != b
    ensures table[a].fingerprint != table[b].fingerprint
  {
    var i :| 0 <= i < |keys| && keys[i].epoch == a;
    var j :| 0 <= j < |keys| && keys[j].epoch == b;
    assert importKey(keys[i].privateKey.value) == Some(table[a].fingerprint);
    assert importKey(keys[j].privateKey.value) == Some(table[b].fingerprint);
  }

  class EpochKeyProvider {
    const importKey: Importer
    const records: seq<ManifestKey>
    /** The memoised outcome of `load`; a failed import stays failed. */
    var imported: Option<Option<map<int, SigningKey>>>

    ghost predicate Valid()
      reads this
    {
      && (forall i :: 0 <= i < |records| ==> records[i].privateKey.Some?)
      && (forall i, j :: 0 <= i < j < |records| ==> records[i].epoch != records[j].epoch)
      && (imported.Some? && imported.value.Some? ==>
            Importable(importKey, records) && IsKeyTable(importKey, records, imported.value.value))
      && (imported.Some? && imported.value.None? ==> !Importable(importKey, records))
    }

    constructor (importKey: Importer, m: Manifest, now: nat)
      requires ManifestOk(m, now)
      ensures Valid() && records == m.keys && imported.None? && this.importKey == importKey
    {
      this.importKey, this.records := importKey, m.keys;
      imported := None;
    }

    /**
     `keysForEpoch`: the rule is tested on entry and again after the import has been awaited, so a key
     that is handed out belongs to the requested epoch and is live at the moment it is handed
     out; it is refused exactly when the epoch was not live at one of the two readings, the
     import failed, or the manifest has no key for it.
     */
    method KeysForEpoch(epoch: int, before: nat, after: nat) returns (key: Option<SigningKey>)
      requires Valid()
      modifies this
      ensures Valid()
      ensures key.Some? <==>
                IsLive(epoch, before) && IsLive(epoch, after) && Importable(importKey, records)
                && exists i :: 0 <= i < |records| && records[i].epoch == epoch
      ensures key.Some? ==> forall i :: 0 <= i < |records| && records[i].epoch == epoch ==>
                records[i].privateKey == Some(key.value.material) && importKey(key.value.material) == Some(key.value.fingerprint)
    {
      if !IsLive(epoch, before) { return None; }
      if imported.None? {
        var table := Load(importKey, records);
        imported := Some(table);
      }
      if imported.value.None? { return None; }
      if !IsLive(epoch, after) { return None; }
      if epoch !in imported.value.value { return None; }
      return Some(imported.value.value[epoch]);
    }
  }
}
