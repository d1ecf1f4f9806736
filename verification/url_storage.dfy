/** The short-URL store: a map from short URLs to the long URLs they stand
    for, written at most once per short URL. The lock around the map and the
    log lines the operations print are not part of this model. */
module UrlStorage {
  import opened Wrappers

  /** The errors a store may report; the map-backed store reports neither. */
  datatype StorageError = Duplicate | Other

  /** `set_if_absent` on a map value: an existing entry wins. */
  function PutIfAbsent(m: map<string, string>, longUrl: string, shortUrl: string): (r: map<string, string>)
    ensures r.Keys == m.Keys + {shortUrl}
    ensures forall k :: k in m ==> r[k] == m[k]
    ensures shortUrl !in m ==> r[shortUrl] == longUrl
  {
    if shortUrl in m then m else m[shortUrl := longUrl]
  }

  /** The map after a sequence of `(long, short)` writes, in order. */
  function PutAll(m: map<string, string>, writes: seq<(string, string)>): map<string, string>
    decreases |writes|
  {
    if writes == [] then m
    else PutAll(PutIfAbsent(m, writes[0].0, writes[0].1), writes[1..])
  }

  /** Write-once: whatever is written later, an entry already stored keeps
      its value, and every written short URL ends up stored. */
  lemma {:induction false} WriteOnce(m: map<string, string>, writes: seq<(string, string)>)
    ensures forall k :: k in m ==> k in PutAll(m, writes) && PutAll(m, writes)[k] == m[k]
    ensures forall i :: 0 <= i < |writes| ==> writes[i].1 in PutAll(m, writes)
    decreases |writes|
  {
    if writes != [] {
      var m' := PutIfAbsent(m, writes[0].0, writes[0].1);
      WriteOnce(m', writes[1..]);
      forall i | 0 < i < |writes|
        ensures writes[i].1 in PutAll(m, writes)
      {
        assert writes[i] == writes[1..][i - 1];
      }
    }
  }

  /** Starting from an empty store, a short URL maps to the long URL of the
      first write that used it. */
  lemma FirstWriteWins(writes: seq<(string, string)>, i: nat)
    requires i < |writes|
    requires forall j :: 0 <= j < i ==> writes[j].1 != writes[i].1
    ensures writes[i].1 in PutAll(map[], writes) && PutAll(map[], writes)[writes[i].1] == writes[i].0
  {
    FirstWriteWinsFrom(map[], writes, i);
  }

  lemma {:induction false} FirstWriteWinsFrom(m: map<string, string>, writes: seq<(string, string)>, i: nat)
    requires i < |writes| && writes[i].1 !in m
    requires forall j :: 0 <= j < i ==> writes[j].1 != writes[i].1
    ensures writes[i].1 in PutAll(m, writes) && PutAll(m, writes)[writes[i].1] == writes[i].0
    decreases i
  {
    var m' := PutIfAbsent(m, writes[0].0, writes[0].1);
    if i == 0 {
      WriteOnce(m', writes[1..]);
    } else {
      FirstWriteWinsFrom(m', writes[1..], i - 1);
    }
  }

  class HashMapStorage {
    var hashMap: map<string, string>

    /** `HashMapStorage::default()`: an empty store. */
    constructor ()
      ensures hashMap == map[]
    {
      hashMap := map[];
    }

    /** Stores `shortUrl -> longUrl` unless `shortUrl` is present; `Ok(None)`
        reports that it was, `Ok(Some(()))` that the entry was added. */
    method SetIfAbsent(longUrl: string, shortUrl: string) returns (r: Result<Option<()>, StorageError>)
      modifies this
      ensures r.Ok?
      ensures shortUrl in old(hashMap) ==> r == Ok(None) && hashMap == old(hashMap)
      ensures shortUrl !in old(hashMap) ==> r == Ok(Some(())) && hashMap == old(hashMap)[shortUrl := longUrl]
      ensures hashMap == PutIfAbsent(old(hashMap), longUrl, shortUrl)
    {
      if shortUrl in hashMap {
        return Ok(None);
      }
      hashMap := hashMap[shortUrl := longUrl];
      r := Ok(Some(()));
    }

    /** The long URL stored for `shortUrl`, if any. */
    method GetContent(shortUrl: string) returns (r: Result<Option<string>, StorageError>)
      ensures r.Ok?
      ensures r.value.Some? <==> shortUrl in hashMap
      ensures r.value.Some? ==> r.value.value == hashMap[shortUrl]
    {
      if shortUrl in hashMap {
        r := Ok(Some(hashMap[shortUrl]));
      } else {
        r := Ok(None);
      }
    }
  }
}
