/** VersionedDBProvider: one VersionedDB handle per database name, opened on
    first request against a shared CouchDB instance and reused afterwards. */
module Provider {
  import opened Wrappers
  import opened ByteStrings
  import opened Errors
  import opened Store
  import opened VersionCache
  import opened StateCouchDB

  /** couchdb.CouchInstance: the databases the server holds by name, the names
      for which CreateCouchDatabase fails, and the faults of a database it
      creates. */
  class CouchInstance {
    var stores: map<Bytes, DocStore>
    const createFails: set<Bytes>
    const newFaults: Faults

    constructor (createFails: set<Bytes>, newFaults: Faults)
      ensures stores == map[] && this.createFails == createFails && this.newFaults == newFaults
    {
      stores := map[];
      this.createFails := createFails;
      this.newFaults := newFaults;
    }

    /** CreateCouchDatabase: the named database, created empty when the
      server does not hold it yet. */
    method CreateCouchDatabase(name: Bytes) returns (r: Result<DocStore, Error>)
      modifies this`stores
      ensures name in createFails ==> r == Failure(StoreError) && stores == old(stores)
      ensures name !in createFails && name in old(stores) ==>
                r == Success(old(stores)[name]) && stores == old(stores)
      ensures name !in createFails && name !in old(stores) ==>
                && r.Success? && fresh(r.value) && r.value.Valid()
                && r.value.docs == map[] && r.value.log == [] && r.value.faults == newFaults
                && stores == old(stores)[name := r.value]
    {
      if name in createFails {
        return Failure(StoreError);
      }
      if name in stores {
        return Success(stores[name]);
      }
      var store := new DocStore(newFaults);
      stores := stores[name := store];
      r := Success(store);
    }
  }

  /** newVersionedDB: open the database and give it a handle with an empty
      cache of its own. */
  method NewVersionedDB(instance: CouchInstance, dbName: Bytes, env: Environment) returns (r: Result<VersionedDB, Error>)
    modifies instance`stores
    ensures r.Failure? <==> dbName in instance.createFails
    ensures r.Failure? ==> r.error == StoreError && instance.stores == old(instance.stores)
    ensures r.Success? ==>
              && fresh(r.value) && fresh(r.value.committedData)
              && r.value.dbName == dbName && r.value.env == env && r.value.committedData.View() == EmptyCache
              && dbName in instance.stores && r.value.db == instance.stores[dbName]
              && instance.stores == old(instance.stores)[dbName := r.value.db]
              && (dbName in old(instance.stores) ==> r.value.db == old(instance.stores)[dbName])
  {
    var db := instance.CreateCouchDatabase(dbName);
    if db.Failure? {
      return Failure(db.error);
    }
    var vdb := new VersionedDB(db.value, dbName, env);
    r := Success(vdb);
  }

  class VersionedDBProvider {
    const couchInstance: CouchInstance
    const env: Environment
    var databases: map<Bytes, VersionedDB>

    /** Every handle is filed under its own database name and sits on the
      database the instance holds under that name. */
    ghost predicate Valid()
      reads this, couchInstance
    {
      forall name | name in databases ::
        && databases[name].dbName == name && databases[name].env == env
        && name in couchInstance.stores && databases[name].db == couchInstance.stores[name]
    }

    /** NewVersionedDBProvider, given the instance CreateCouchInstance returned. */
    constructor (couchInstance: CouchInstance, env: Environment)
      ensures Valid() && databases == map[]
      ensures this.couchInstance == couchInstance && this.env == env
    {
      this.couchInstance := couchInstance;
      this.env := env;
      databases := map[];
    }

    /** GetDBHandle: the handle already opened for the name, otherwise a new
      one, remembered only when opening succeeds. */
    method GetDBHandle(dbName: Bytes) returns (r: Result<VersionedDB, Error>)
      requires Valid()
      modifies this`databases, couchInstance`stores
      ensures Valid()
      ensures r.Success? ==> r.value.dbName == dbName && r.value.env == env
      ensures r.Success? ==> dbName in couchInstance.stores && r.value.db == couchInstance.stores[dbName]
      ensures dbName in old(databases) ==>
                && r == Success(old(databases)[dbName])
                && databases == old(databases) && couchInstance.stores == old(couchInstance.stores)
      ensures dbName !in old(databases) ==>
                && (r.Failure? <==> dbName in couchInstance.createFails)
                && (r.Failure? ==> databases == old(databases) && couchInstance.stores == old(couchInstance.stores))
                && (r.Success? ==>
                      && fresh(r.value) && r.value.committedData.View() == EmptyCache
                      && databases == old(databases)[dbName := r.value])
    {
      if dbName in databases {
        return Success(databases[dbName]);
      }
      var vdb := NewVersionedDB(couchInstance, dbName, env);
      if vdb.Failure? {
        return Failure(vdb.error);
      }
      databases := databases[dbName := vdb.value];
      r := vdb;
    }
  }
}
