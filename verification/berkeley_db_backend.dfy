/** `RrdBerkeleyDbBackend`: a byte buffer staged in memory over a Berkeley DB store. Writes go
    to the buffer and mark the backend dirty; `close` commits the whole buffer as one record
    keyed by the UTF-8 bytes of the path, and only when the backend is dirty. */
module BerkeleyDb {
  import opened Wrappers
  import opened ByteArray
  import Utf8

  /** One `Database.put` call: the record it was given and, when the store threw a
      `DatabaseException`, that exception's message. */
  datatype PutCall = PutCall(key: seq<byte>, data: seq<byte>, failure: Option<string>)

  /** The Berkeley DB `Database`, seen only through `put`. */
  class Database {
    var records: map<seq<byte>, seq<byte>>
    /** Every `put` made on this store, oldest first. */
    ghost var puts: seq<PutCall>

    constructor (records: map<seq<byte>, seq<byte>>)
      ensures this.records == records && puts == []
    {
      this.records := records;
      puts := [];
    }

    /** An auto-committed `put(key, data)`: either the record is stored, or the store fails
        with a message and its records stay as they were. Which one happens is the store's
        own business, so the model leaves it open. */
    method Put(key: seq<byte>, data: seq<byte>) returns (failure: Option<string>)
      modifies this
      ensures puts == old(puts) + [PutCall(key, data, failure)]
      ensures failure.None? ==> records == old(records)[key := data]
      ensures failure.Some? ==> records == old(records)
    {
      failure :| true;
      if failure.None? {
        records := records[key := data];
      }
      puts := puts + [PutCall(key, data, failure)];
    }
  }

  /** The `IOException` that `write` and `close` may throw. */
  datatype IOError = BufferBounds(bounds: BoundsError) | StoreFailure(message: string)

  /** The record key for a path: its UTF-8 bytes. */
  function RecordKey(path: string): (key: seq<byte>)
    ensures |path| <= |key|
  {
    Utf8.Encode(path)
  }

  /** Distinct paths never share a record. */
  lemma RecordKeysDistinct(p: string, q: string)
    requires p != q
    ensures RecordKey(p) != RecordKey(q)
  {
    if RecordKey(p) == RecordKey(q) {
      Utf8.EncodeInjective(p, q);
    }
  }

  class BerkeleyDbBackend {
    const path: string
    const database: Database
    var buffer: seq<byte>
    var dirty: bool

    /** `RrdBerkeleyDbBackend(path, rrdDatabase)`: an empty buffer, not dirty. */
    constructor (path: string, database: Database)
      ensures this.path == path && this.database == database
      ensures buffer == [] && !dirty
    {
      this.path := path;
      this.database := database;
      buffer := [];
      dirty := false;
    }

    /** `RrdBerkeleyDbBackend(buffer, path, rrdDatabase)`: starts from a buffer fetched from
        the store, taken as it is, not dirty. */
    constructor WithBuffer(buffer: seq<byte>, path: string, database: Database)
      ensures this.path == path && this.database == database
      ensures this.buffer == buffer && !dirty
    {
      this.path := path;
      this.database := database;
      this.buffer := buffer;
      dirty := false;
    }

    /** `write(offset, bytes)`: the inherited buffer write, then the dirty flag. When the
        inherited write throws, the flag is not reached. The store is not touched. */
    method Write(offset: int, bytes: seq<byte>) returns (r: Outcome<IOError>)
      modifies this`buffer, this`dirty
      ensures r.Pass? <==> InBounds(old(buffer), offset, |bytes|)
      ensures r.Pass? ==> buffer == Splice(old(buffer), offset, bytes) && dirty
      ensures r.Fail? ==> buffer == old(buffer) && dirty == old(dirty)
                          && r.error == BufferBounds(OutOfBounds(offset, |bytes|, |old(buffer)|))
    {
      match ByteArray.Write(buffer, offset, bytes)
      case Failure(e) =>
        return Fail(BufferBounds(e));
      case Success(written) =>
        buffer := written;
        dirty := true;
        return Pass;
    }

    /** `close()`: when dirty, one `put` of the record (UTF-8 path, whole buffer), whose
        failure becomes an `IOException` with the store's message; when clean, nothing.
        The buffer and the dirty flag are left as they are either way. */
    method Close() returns (r: Outcome<IOError>)
      modifies database
      ensures !dirty ==> r == Pass && unchanged(database)
      ensures dirty ==> |database.puts| == |old(database.puts)| + 1
      ensures dirty ==> var call := database.puts[|database.puts| - 1];
                        && database.puts == old(database.puts) + [call]
                        && call.key == RecordKey(path) && call.data == buffer
                        && (call.failure.None? ==>
                              (r == Pass && database.records == old(database.records)[RecordKey(path) := buffer]))
                        && (call.failure.Some? ==>
                              (r == Fail(StoreFailure(call.failure.value)) && database.records == old(database.records)))
    {
      if dirty {
        var failure := database.Put(RecordKey(path), buffer);
        if failure.Some? {
          return Fail(StoreFailure(failure.value));
        }
      }
      return Pass;
    }
  }

  /** A dirty backend stays dirty after `close`, so closing it again puts the same record
      a second time. */
  method CloseTwice(backend: BerkeleyDbBackend) returns (first: Outcome<IOError>, second: Outcome<IOError>)
    requires backend.dirty
    modifies backend.database
    ensures backend.dirty
    ensures var key, n := RecordKey(backend.path), |old(backend.database.puts)|;
            && |backend.database.puts| == n + 2
            && backend.database.puts[n].key == backend.database.puts[n + 1].key == key
            && backend.database.puts[n].data == backend.database.puts[n + 1].data == backend.buffer
  {
    first := backend.Close();
    second := backend.Close();
  }

  /** A clean backend (fresh, or built from a fetched record and never written) commits
      nothing on `close`. */
  method CloseUnwritten(buffer: seq<byte>, path: string, database: Database) returns (r: Outcome<IOError>)
    modifies database
    ensures r == Pass && unchanged(database)
  {
    var backend := new BerkeleyDbBackend.WithBuffer(buffer, path, database);
    r := backend.Close();
  }

  /** Write, close, and reopen from the committed record: the reopened backend reads back
      exactly the bytes written, at the offset they were written to. */
  method ReopenAfterCommit(initial: seq<byte>, path: string, database: Database, offset: int, bytes: seq<byte>)
    returns (reopened: Option<BerkeleyDbBackend>)
    modifies database
    ensures reopened.Some? ==> && fresh(reopened.value)
                               && InBounds(initial, offset, |bytes|)
                               && RecordKey(path) in database.records
                               && database.records[RecordKey(path)] == Splice(initial, offset, bytes)
                               && reopened.value.buffer == Splice(initial, offset, bytes)
                               && ByteArray.Read(reopened.value.buffer, offset, |bytes|) == Success(bytes)
    ensures reopened.None? ==> || !InBounds(initial, offset, |bytes|)
                               || (|database.puts| > 0 && database.puts[|database.puts| - 1].failure.Some?)
  {
    var backend := new BerkeleyDbBackend.WithBuffer(initial, path, database);
    var written := backend.Write(offset, bytes);
    if written.Fail? {
      return None;
    }
    var closed := backend.Close();
    if closed.Fail? {
      return None;
    }
    var record := database.records[RecordKey(path)];
    var again := new BerkeleyDbBackend.WithBuffer(record, path, database);
    ByteArray.WriteThenRead(initial, offset, bytes, 0, 0);
    return Some(again);
  }
}
