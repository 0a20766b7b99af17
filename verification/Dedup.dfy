/** The table of imported hashes (src/decision_system/connectors/dedup.py). */
module Dedup {
  import opened Prelude
  import opened Contents

  datatype Entry = Entry(hash: Hash, sourceId: string, sourceUrl: string, version: nat)

  datatype DuplicateResult = DuplicateResult(isUnchanged: bool, isChanged: bool, existingVersion: nat)

  class DuplicateDetector {
    var tables: map<Scope, map<string, Entry>>

    constructor ()
      ensures tables == map[]
    {
      tables := map[];
    }

    function Table(scope: Scope): map<string, Entry>
      reads this
    {
      if scope in tables then tables[scope] else map[]
    }

    /** Compares a hash with the one recorded for the item. */
    method CheckDuplicate(scope: Scope, externalId: string, hash: Hash) returns (r: DuplicateResult)
      ensures r.isUnchanged <==> externalId in Table(scope) && Table(scope)[externalId].hash == hash
      ensures r.isChanged <==> externalId in Table(scope) && Table(scope)[externalId].hash != hash
      ensures r.existingVersion == if externalId in Table(scope) then Table(scope)[externalId].version else 0
    {
      var hashes := Table(scope);
      if externalId !in hashes {
        return DuplicateResult(false, false, 0);
      }
      var existing := hashes[externalId];
      r := DuplicateResult(existing.hash == hash, existing.hash != hash, existing.version);
    }

    /** Records a hash; the version counter of an item that is already there goes up by one. */
    method RecordImport(scope: Scope, externalId: string, hash: Hash, sourceId: string, sourceUrl: string, version: nat)
      modifies this
      ensures Table(scope) == old(Table(scope))[externalId :=
                Entry(hash, sourceId, sourceUrl,
                      if externalId in old(Table(scope)) then old(Table(scope))[externalId].version + 1 else version)]
      ensures forall s :: s != scope ==> Table(s) == old(Table(s))
    {
      var hashes := Table(scope);
      var newVersion := if externalId in hashes then hashes[externalId].version + 1 else version;
      tables := tables[scope := hashes[externalId := Entry(hash, sourceId, sourceUrl, newVersion)]];
    }

    method ClearConnector(scope: Scope)
      modifies this
      ensures Table(scope) == map[]
      ensures forall s :: s != scope ==> Table(s) == old(Table(s))
    {
      tables := tables - {scope};
    }
  }
}
