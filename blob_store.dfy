/**
 * The persistent blob store of downloaded engine files (lib/services/indexeddb.js):
 * one IndexedDB database "ffmpeg-cache" with one object store "files", keyed by file name.
 */
module BlobStore {
  import opened Outcomes

  /** A stored value: an ArrayBuffer or a string. */
  datatype Payload = Binary(bytes: seq<bv8>) | Text(text: string)

  /** JavaScript truthiness of a stored value: an ArrayBuffer is always truthy, the empty string is not. */
  predicate Truthy(p: Payload) {
    p.Binary? || p.text != ""
  }

  const DB_NAME: string := "ffmpeg-cache"
  const DB_VERSION: nat := 1
  const STORE_NAME: string := "files"

  /** The object stores present after opening the database: "files" is created only when missing. */
  function UpgradeSchema(stores: set<string>): (r: set<string>)
    ensures STORE_NAME in r && stores <= r && r - stores <= {STORE_NAME}
  {
    if STORE_NAME in stores then stores else stores + {STORE_NAME}
  }

  /** Opening twice gives the schema that opening once gives. */
  lemma UpgradeSchemaIdempotent(stores: set<string>)
    ensures UpgradeSchema(UpgradeSchema(stores)) == UpgradeSchema(stores)
    ensures STORE_NAME in stores ==> UpgradeSchema(stores) == stores
  {
  }

  /**
   * What `getFile` resolves to for a key: the stored value, or `None` when the key is
   * absent and also when the stored value is falsy (`request.result || null`).
   */
  function ReadFile(files: map<string, Payload>, key: string): (r: Option<Payload>)
  {
    if key in files && Truthy(files[key]) then Some(files[key]) else None
  }

  /** `storeFile` is last-write-wins: reading back gives the value written, unless it is falsy. */
  lemma ReadAfterStore(files: map<string, Payload>, key: string, data: Payload)
    ensures ReadFile(files[key := data], key) == if Truthy(data) then Some(data) else None
  {
  }

  /** Writing or deleting one key leaves what every other key reads unchanged. */
  lemma ReadFrame(files: map<string, Payload>, key: string, data: Payload, other: string)
    requires other != key
    ensures ReadFile(files[key := data], other) == ReadFile(files, other)
    ensures ReadFile(files - {key}, other) == ReadFile(files, other)
  {
  }

  /** After a delete, or on an empty store, nothing is read. */
  lemma ReadAfterDelete(files: map<string, Payload>, key: string)
    ensures ReadFile(files - {key}, key) == None
    ensures ReadFile(map[], key) == None
  {
  }

  /** The error a rejected request carries. */
  datatype StoreError = OpenFailed

  /** The "files" object store; `available` is false when the browser refuses to open the database. */
  class FileStore {
    var files: map<string, Payload>
    const objectStores: set<string>
    const available: bool

    /** Opening the database: the upgrade handler creates "files" only when it is missing. */
    constructor (existingStores: set<string>, persisted: map<string, Payload>, available: bool)
      ensures this.available == available
      ensures objectStores == if available then UpgradeSchema(existingStores) else existingStores
      ensures files == persisted
    {
      this.available := available;
      objectStores := if available then UpgradeSchema(existingStores) else existingStores;
      files := persisted;
    }

    /** `storeFile`: put `data` under `key`, replacing any earlier value; throws when the database cannot be opened. */
    method StoreFile(key: string, data: Payload) returns (r: Outcome<StoreError>)
      modifies this`files
      ensures r == if available then Pass else Fail(OpenFailed)
      ensures files == if available then old(files)[key := data] else old(files)
    {
      if !available {
        return Fail(OpenFailed);
      }
      files := files[key := data];
      r := Pass;
    }

    /** `getFile`: the value under `key`, `None` when absent or falsy; throws when the database cannot be opened. */
    method GetFile(key: string) returns (r: Result<Option<Payload>, StoreError>)
      ensures available ==> r == Success(ReadFile(files, key))
      ensures !available ==> r == Failure(OpenFailed)
    {
      if !available {
        return Failure(OpenFailed);
      }
      if key in files && Truthy(files[key]) {
        r := Success(Some(files[key]));
      } else {
        r := Success(None);
      }
    }

    /** `fileExists`: whether `getFile` yields a value; an error reads as `false` instead of propagating. */
    method FileExists(key: string) returns (present: bool)
      ensures present <==> available && ReadFile(files, key).Some?
    {
      var file := GetFile(key);
      match file
      case Success(v) => present := v.Some?;
      case Failure(_) => present := false;
    }

    /** `clearCache`: remove every stored value. */
    method ClearCache() returns (r: Outcome<StoreError>)
      modifies this`files
      ensures r == if available then Pass else Fail(OpenFailed)
      ensures files == if available then map[] else old(files)
    {
      if !available {
        return Fail(OpenFailed);
      }
      files := map[];
      r := Pass;
    }

    /** `deleteFile`: remove the value under `key`, if any. */
    method DeleteFile(key: string) returns (r: Outcome<StoreError>)
      modifies this`files
      ensures r == if available then Pass else Fail(OpenFailed)
      ensures files == if available then old(files) - {key} else old(files)
    {
      if !available {
        return Fail(OpenFailed);
      }
      files := files - {key};
      r := Pass;
    }

    /** `getAllKeys`: every key present, each once. */
    method GetAllKeys() returns (r: Result<seq<string>, StoreError>)
      ensures !available ==> r == Failure(OpenFailed)
      ensures available ==> r.Success? && (forall k :: k in r.value <==> k in files)
                            && forall i, j :: 0 <= i < j < |r.value| ==> r.value[i] != r.value[j]
    {
      if !available {
        return Failure(OpenFailed);
      }
      var keys: seq<string> := [];
      var rest := files.Keys;
      while rest != {}
        invariant rest !! (set k | k in keys)
        invariant forall k :: k in files <==> k in keys || k in rest
        invariant forall i, j :: 0 <= i < j < |keys| ==> keys[i] != keys[j]
        decreases rest
      {
        var k :| k in rest;
        keys := keys + [k];
        rest := rest - {k};
      }
      r := Success(keys);
    }
  }
}
