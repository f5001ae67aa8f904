/**
 The manifest cache as one process uses it: two files for each key, refining a
 plain map from identities to entries when the key hash has no collisions.
 */
module Cache {
  import opened Wrappers
  import opened Sorting
  import Utf8

  const U64_MAX: nat := 0xFFFF_FFFF_FFFF_FFFF

  // What one `put` records.
  datatype Entry = Entry(bytes: string, url: string, fetchedAt: nat)

  function SaturatingAdd(a: nat, b: nat): nat {
    if a + b > U64_MAX then U64_MAX else a + b
  }

  // A ttl of the maximal u64 means never stale.
  predicate Fresh(ttl: nat, fetchedAt: nat, now: nat) {
    ttl == U64_MAX || now < SaturatingAdd(fetchedAt, ttl)
  }

  // The metadata file.
  datatype Meta = Meta(identity: string, url: string, fetchedAt: nat, sha256: string)

  datatype Hit = Hit(entry: Entry, isFresh: bool)

  ghost predicate Injective(f: string -> string) {
    forall a, b :: f(a) == f(b) ==> a == b
  }

  predicate ById(a: Meta, b: Meta) {
    Utf8.LexLess(a.identity, b.identity)
  }

  lemma ByIdIsOrder()
    ensures IsOrder(ById)
  {
    LexIsOrder();
  }

  // The keys of the first identities of a list.
  function KeysOf(key: string -> string, metas: seq<Meta>, n: nat): set<string>
    requires n <= |metas|
  {
    set i | 0 <= i < n :: key(metas[i].identity)
  }

  lemma KeysOfMore(key: string -> string, metas: seq<Meta>, n: nat)
    requires n < |metas|
    ensures KeysOf(key, metas, n + 1) == KeysOf(key, metas, n) + {key(metas[n].identity)}
  {
  }

  lemma Emptied<V>(m: map<string, V>, gone: set<string>)
    ensures m - gone == map[] <==> m.Keys <= gone
  {
    if m - gone == map[] {
      forall k | k in m.Keys ensures k in gone {
        assert k !in m - gone;
      }
    }
  }

  class ManifestCache {
    const key: string -> string
    const digest: string -> string
    var data: map<string, string>
    // None is a file that is no metadata.
    var metas: map<string, Option<Meta>>

    constructor (key: string -> string, digest: string -> string)
      ensures this.key == key && this.digest == digest && Valid() && forall id :: Lookup(id) == None
    {
      this.key, this.digest, data, metas := key, digest, map[], map[];
    }

    // Every entry has both its files, under its own key, and they fit together.
    ghost predicate Valid()
      reads this
    {
      && data.Keys == metas.Keys
      && forall k :: k in metas ==>
           metas[k].Some? && key(metas[k].value.identity) == k && metas[k].value.sha256 == digest(data[k])
    }

    // The map the files stand for.
    ghost function Lookup(id: string): Option<Entry>
      reads this
    {
      var k := key(id);
      if k in data && k in metas && metas[k].Some? && metas[k].value.identity == id
      then Some(Entry(data[k], metas[k].value.url, metas[k].value.fetchedAt)) else None
    }

    // Both files are there and can be read.
    ghost predicate Paired(k: string)
      reads this
    {
      k in data && k in metas && metas[k].Some?
    }

    // They fit each other and the identity.
    ghost predicate Fits(id: string)
      reads this
    {
      Paired(key(id)) && metas[key(id)].value.identity == id && metas[key(id)].value.sha256 == digest(data[key(id)])
    }

    // `get`, on any files whatever: it answers exactly when both files are there and fit,
    // drops both when they are there and do not, and touches nothing otherwise.
    method Get(id: string, ttl: nat, now: nat) returns (r: Option<Hit>)
      modifies this
      ensures r.Some? <==> old(Fits(id))
      ensures r.Some? ==>
        Lookup(id).Some? && r == Some(Hit(Lookup(id).value, Fresh(ttl, Lookup(id).value.fetchedAt, now)))
      ensures r.Some? || !old(Paired(key(id))) ==> data == old(data) && metas == old(metas)
      ensures r.None? && old(Paired(key(id))) ==>
        data == old(data) - {key(id)} && metas == old(metas) - {key(id)}
      ensures old(Valid()) && Injective(key) ==>
        data == old(data) && metas == old(metas) && (r.Some? <==> Lookup(id).Some?)
    {
      var k := key(id);
      if k !in data || k !in metas || metas[k].None? {
        return None;
      }
      var bytes, meta := data[k], metas[k].value;
      if meta.identity != id || digest(bytes) != meta.sha256 {
        data := data - {k};
        metas := metas - {k};
        return None;
      }
      return Some(Hit(Entry(bytes, meta.url, meta.fetchedAt), Fresh(ttl, meta.fetchedAt, now)));
    }

    method Put(id: string, url: string, bytes: string, now: nat)
      modifies this
      ensures data == old(data)[key(id) := bytes]
      ensures metas == old(metas)[key(id) := Some(Meta(id, url, now, digest(bytes)))]
      ensures old(Valid()) && Injective(key) ==> Valid() && forall other ::
        Lookup(other) == if other == id then Some(Entry(bytes, url, now)) else old(Lookup(other))
    {
      data := data[key(id) := bytes];
      metas := metas[key(id) := Some(Meta(id, url, now, digest(bytes)))];
    }

    method Evict(id: string) returns (existed: bool)
      modifies this
      ensures existed <==> key(id) in old(data) || key(id) in old(metas)
      ensures data == old(data) - {key(id)} && metas == old(metas) - {key(id)}
      ensures old(Valid()) && Injective(key) ==>
        && Valid() && existed == old(Lookup(id)).Some?
        && forall other :: Lookup(other) == if other == id then None else old(Lookup(other))
    {
      var k := key(id);
      existed := k in data || k in metas;
      data := data - {k};
      metas := metas - {k};
    }

    // The files whose metadata can be read.
    ghost function Readable(): set<string>
      reads this
    {
      set k | k in metas && metas[k].Some?
    }

    // All metadata that can be read, in identity order.
    method List() returns (out: seq<Meta>)
      ensures IsSorted(out, ById) && |out| == |Readable()|
      ensures forall m :: m in out <==> exists k :: k in Readable() && metas[k] == Some(m)
    {
      out := [];
      var todo := metas.Keys;
      ghost var read: set<string> := {};
      while todo != {}
        invariant todo <= metas.Keys && IsSorted(out, ById)
        invariant read == (set k | k in metas.Keys - todo && metas[k].Some?) && |out| == |read|
        invariant forall m :: m in out <==> exists k :: k in read && metas[k] == Some(m)
        decreases todo
      {
        var k :| k in todo;
        todo := todo - {k};
        if metas[k].Some? {
          out := InsertRead(out, metas[k].value, k, read);
          read := read + {k};
        }
      }
      assert read == Readable();
    }

    method InsertRead(listed: seq<Meta>, m: Meta, k: string, ghost read: set<string>) returns (out: seq<Meta>)
      requires IsSorted(listed, ById) && k !in read && k in metas && metas[k] == Some(m)
      requires read <= metas.Keys && forall x :: x in listed <==> exists j :: j in read && metas[j] == Some(x)
      ensures IsSorted(out, ById) && |out| == |listed| + 1
      ensures forall x :: x in out <==> exists j :: j in read + {k} && metas[j] == Some(x)
    {
      ByIdIsOrder();
      InsertSorted(listed, m, ById);
      InsertHolds(listed, m, ById);
      out := Insert(listed, m, ById);
    }

    // The keys the listed identities have.
    ghost function Evicted(): set<string>
      reads this
    {
      set k | k in Readable() :: key(metas[k].value.identity)
    }

    // Evicts every identity listed and returns how many. What is under no listed identity's
    // key stays: both folders are empty afterwards exactly when there is no such file.
    method Clear() returns (n: nat)
      modifies this
      ensures n == |old(Readable())|
      ensures data == old(data) - old(Evicted()) && metas == old(metas) - old(Evicted())
      ensures data == map[] && metas == map[] <==> old(data.Keys + metas.Keys <= Evicted())
      ensures old(Valid()) ==> data == map[] && metas == map[]
    {
      ghost var goal := Evicted();
      Emptied(data, goal);
      Emptied(metas, goal);
      if Valid() {
        AllEvicted();
      }
      var entries := List();
      AllListed(entries, goal);
      EvictAll(entries);
      return |entries|;
    }

    method EvictAll(entries: seq<Meta>)
      modifies this
      ensures data == old(data) - KeysOf(key, entries, |entries|)
      ensures metas == old(metas) - KeysOf(key, entries, |entries|)
    {
      for i := 0 to |entries|
        invariant data == old(data) - KeysOf(key, entries, i) && metas == old(metas) - KeysOf(key, entries, i)
      {
        var existed := Evict(entries[i].identity);
        KeysOfMore(key, entries, i);
      }
    }

    lemma AllEvicted()
      requires Valid()
      ensures data.Keys + metas.Keys <= Evicted()
    {
      forall k | k in metas ensures k in Evicted() {
        assert k in Readable();
      }
    }

    lemma AllListed(entries: seq<Meta>, goal: set<string>)
      requires forall m :: m in entries <==> exists k :: k in Readable() && metas[k] == Some(m)
      requires goal == Evicted()
      ensures KeysOf(key, entries, |entries|) == goal
    {
      forall k | k in Readable() ensures key(metas[k].value.identity) in KeysOf(key, entries, |entries|) {
        assert metas[k].value in entries;
        var i :| 0 <= i < |entries| && entries[i] == metas[k].value;
      }
      forall i | 0 <= i < |entries| ensures key(entries[i].identity) in goal {
        assert entries[i] in entries;
      }
    }
  }
}
