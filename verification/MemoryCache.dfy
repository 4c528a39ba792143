/**
 The Agent's in-memory cache, agent/cache.go. Bodies are byte arrays on the heap, and every record
 is copied on its way in and out, so no caller can change what the cache holds.
 */
module MemoryCache {
  import opened Wrappers
  import opened Freshness

  type Body = seq<bv8>

  /** An absolute URL; the origin is absent where deriving a Service origin from it fails. */
  datatype Url = Url(origin: Option<string>, address: string)

  datatype CacheRecord = CacheRecord(body: Body, etag: string, expiresAt: Time, finalURL: Option<Url>,
                                     lastModified: string, status: int, storedAt: Option<Time>)

  /** A record as it lies in the cache: `record.body` is in `bytes`. */
  datatype Stored = Stored(bytes: array<bv8>, record: CacheRecord)

  type Records = map<string, CacheRecord>

  class Cache {
    var records: map<string, Stored>

    constructor ()
      ensures records == map[] && Contents() == map[] && Repr() == {}
    {
      records := map[];
    }

    ghost function Repr(): set<object>
      reads this
    {
      set key | key in records :: records[key].bytes
    }

    /** The records with the bodies that their arrays hold now. */
    ghost function Contents(): Records
      reads this, Repr()
    {
      map key | key in records :: records[key].record.(body := records[key].bytes[..])
    }

    method Get(key: string) returns (found: Option<CacheRecord>, body: array<bv8>)
      ensures found == if key in Contents() then Some(Contents()[key]) else None
      ensures fresh(body) && (found.Some? ==> body[..] == found.value.body)
    {
      if key !in records {
        return None, new bv8[0];
      }
      body := Copy(records[key].bytes);
      return Some(records[key].record.(body := body[..])), body;
    }

    method Set(key: string, record: CacheRecord, body: array<bv8>)
      requires body !in Repr()
      modifies this
      ensures Contents() == old(Contents())[key := record.(body := body[..])]
      ensures body !in Repr() && fresh(Repr() - old(Repr()))
    {
      var copy := Copy(body);
      records := records[key := Stored(copy, record)];
    }

    method Delete(key: string)
      modifies this
      ensures Contents() == old(Contents()) - {key}
      ensures Repr() <= old(Repr())
    {
      records := records - {key};
    }

    /**
     What a caller does with the bytes it got, or with the bytes it stored, does not reach the
     cache: any array outside `Repr()` can be overwritten at will.
     */
    method StoreThenScribble(key: string, record: CacheRecord, body: array<bv8>, junk: bv8)
      requires body !in Repr()
      modifies this, body
      ensures Contents() == old(Contents())[key := record.(body := old(body[..]))]
    {
      Set(key, record, body);
      var found, copy := Get(key);
      Fill(body, junk);
      Fill(copy, junk);
      found, copy := Get(key);
      assert found == Some(record.(body := old(body[..])));
    }
  }

  method Copy(a: array<bv8>) returns (b: array<bv8>)
    ensures fresh(b) && b[..] == a[..]
  {
    b := new bv8[a.Length](i requires 0 <= i < a.Length reads a => a[i]);
  }

  method Fill(a: array<bv8>, junk: bv8)
    modifies a
    ensures forall i :: 0 <= i < a.Length ==> a[i] == junk
  {
    for i := 0 to a.Length
      invariant forall j :: 0 <= j < i ==> a[j] == junk
    {
      a[i] := junk;
    }
  }
}
