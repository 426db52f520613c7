/**
 The prefix-cache store: an index of READY entries with LRU order, entries still being written,
 replaced entries kept alive by leases, and the leases themselves.

 Python entries are shared, mutable objects. Here an entry has an identity `Id`, the heap of entries
 is the map `entries`, and the containers hold identities. An entry leaves `entries` when its pages
 are given back to the pool.
 */
module Store {
  import opened Wrappers
  import E = Extents

  /** The wire form is "<chunk-hash>:<rank>". */
  datatype Key = Key(hash: string, rank: int)

  type Session = string
  type Id = nat

  /** `state`, `owner` and `retired` of an entry, together. */
  datatype Phase = Writing(owner: Session) | Ready | Retired

  datatype Entry = Entry(key: Key, offset: int, size: int, phase: Phase, pins: nat)

  datatype Lease = Lease(keys: seq<Key>, expires: real, owner: Session)

  datatype State = State(
    pool: E.Pool, capacity: int,
    entries: map<Id, Entry>, nextId: Id,
    index: map<Key, Id>, lru: seq<Key>,
    writing: map<(Key, Session), Id>,
    retired: seq<Id>,
    leases: map<nat, Lease>, nextLease: nat)

  function Min(a: int, b: int): int { if a < b then a else b }
  function Max(a: int, b: int): int { if a < b then b else a }

  function PoolBytes(p: E.Pool): int { p.total * p.page }

  /** A missing or zero capacity means the whole pool. */
  function Init(poolBytes: int, page: E.pos, capacity: Option<int>): State {
    var pool := E.Fresh(poolBytes, page);
    var cap := if capacity.Some? && capacity.value != 0 then capacity.value else PoolBytes(pool);
    State(pool, Min(cap, PoolBytes(pool)), map[], 0, map[], [], map[], [], map[], 1)
  }

  predicate Cached(st: State, k: Key) { k in st.index && st.index[k] in st.entries }

  function Pins(st: State, k: Key): nat { if Cached(st, k) then st.entries[st.index[k]].pins else 0 }

  /** An ordered dictionary without key `k`. */
  function Without(s: seq<Key>, k: Key): (r: seq<Key>)
    ensures |r| <= |s| && (k in s ==> |r| == |s| - 1) && (k !in s ==> r == s)
  {
    if s == [] then [] else if s[0] == k then s[1..] else [s[0]] + Without(s[1..], k)
  }

  // ------------------------------------------------------------------ space

  /** Give the entry's pages back. */
  function FreeEntry(st: State, id: Id): State
    requires id in st.entries
  {
    st.(pool := E.Free(st.pool, st.entries[id].offset, st.entries[id].size), entries := st.entries - {id})
  }

  function Drop(st: State, k: Key): State
    requires Cached(st, k)
  {
    FreeEntry(st.(lru := Without(st.lru, k), index := st.index - {k}), st.index[k])
  }

  /** The first position at or after `i`, oldest first, of an unpinned READY key. */
  function Victim(st: State, i: nat): (j: nat)
    requires i <= |st.lru|
    ensures i <= j <= |st.lru|
    ensures j < |st.lru| ==> Cached(st, st.lru[j]) && Pins(st, st.lru[j]) == 0
    ensures forall n :: i <= n < j ==> Cached(st, st.lru[n]) ==> Pins(st, st.lru[n]) > 0
    decreases |st.lru| - i
  {
    if i == |st.lru| || (Cached(st, st.lru[i]) && Pins(st, st.lru[i]) == 0) then i else Victim(st, i + 1)
  }

  function EvictOne(st: State): (bool, State) {
    var j := Victim(st, 0);
    if j == |st.lru| then (false, st) else (true, Drop(st, st.lru[j]))
  }

  predicate FitsCapacity(st: State, nbytes: int) {
    st.pool.used * st.pool.page + E.PagesFor(st.pool.page, nbytes) * st.pool.page <= st.capacity
  }

  /** Allocate, evicting the least recently used unpinned entries as needed. */
  function Allocate(st: State, nbytes: int): (Option<int>, State)
    decreases |st.lru|
  {
    var (off, pool) := E.Alloc(st.pool, nbytes);
    if FitsCapacity(st, nbytes) && off.Some? then (off, st.(pool := pool))
    else
      var (ok, st') := EvictOne(st);
      if ok then Allocate(st', nbytes) else (None, st)
  }

  function Shrink(st: State): State
    decreases |st.lru|
  {
    if st.pool.used * st.pool.page > st.capacity then
      var (ok, st') := EvictOne(st);
      if ok then Shrink(st') else st
    else st
  }

  function SetCapacity(st: State, bytes: int): State {
    Shrink(st.(capacity := Max(0, Min(bytes, PoolBytes(st.pool)))))
  }

  function FlushKeys(st: State, ks: seq<Key>): State
    decreases |ks|
  {
    if ks == [] then st
    else FlushKeys(if Cached(st, ks[0]) && Pins(st, ks[0]) == 0 then Drop(st, ks[0]) else st, ks[1..])
  }

  /** Drop every unpinned READY entry. */
  function Flush(st: State): State { FlushKeys(st, st.lru) }

  // ----------------------------------------------------------------- lookup

  predicate Hit(st: State, hash: string, ranks: int) {
    forall r :: 0 <= r < ranks ==> Key(hash, r) in st.index
  }

  function Hits(st: State, hashes: seq<string>, ranks: int): nat {
    if hashes == [] || !Hit(st, hashes[0], ranks) then 0 else 1 + Hits(st, hashes[1..], ranks)
  }

  /** The keys of a hit prefix, one row of chunks per rank. */
  function Rows(hashes: seq<string>, ranks: int): seq<Key>
    decreases if ranks < 0 then 0 else ranks
  {
    if ranks <= 0 then [] else Rows(hashes, ranks - 1) + seq(|hashes|, i requires 0 <= i < |hashes| => Key(hashes[i], ranks - 1))
  }

  function TouchAll(st: State, ks: seq<Key>): State
    decreases |ks|
  {
    if ks == [] then st else TouchAll(st.(lru := Without(st.lru, ks[0]) + [ks[0]]), ks[1..])
  }

  function Pin(st: State, k: Key): State
    requires Cached(st, k)
  {
    var id := st.index[k];
    st.(entries := st.entries[id := st.entries[id].(pins := st.entries[id].pins + 1)])
  }

  function PinAll(st: State, ks: seq<Key>): State
    decreases |ks|
  {
    if ks == [] then st else PinAll(if Cached(st, ks[0]) then Pin(st, ks[0]) else st, ks[1..])
  }

  datatype Found = Found(hits: nat, lease: Option<nat>, granted: seq<Id>)

  /** The entries handed to the client, in the order of the keys. */
  function IdsOf(index: map<Key, Id>, ks: seq<Key>): (ids: seq<Id>)
    ensures |ids| == |ks| && forall i :: 0 <= i < |ks| ==> ks[i] in index ==> ids[i] == index[ks[i]]
  {
    seq(|ks|, i requires 0 <= i < |ks| => if ks[i] in index then index[ks[i]] else 0)
  }

  function Lookup(st: State, hashes: seq<string>, ranks: int, pin: bool, expires: real, owner: Session): (Found, State) {
    var hits := Hits(st, hashes, ranks);
    var full := Rows(hashes[..Min(hits, |hashes|)], ranks);
    var st1 := TouchAll(st, full);
    if pin && hits > 0 then
      var st2 := PinAll(st1, full);
      (Found(hits, Some(st.nextLease), IdsOf(st.index, full)),
       st2.(leases := st2.leases[st.nextLease := Lease(full, expires, owner)], nextLease := st.nextLease + 1))
    else
      (Found(hits, None, IdsOf(st.index, full)), st1)
  }

  /** The first position at or after `i` of a replaced entry of key `k`. */
  function OldVersion(st: State, k: Key, i: nat): (j: nat)
    requires i <= |st.retired|
    ensures i <= j <= |st.retired|
    ensures j < |st.retired| ==>
              st.retired[j] in st.entries && st.entries[st.retired[j]].key == k && st.entries[st.retired[j]].pins > 0
    decreases |st.retired| - i
  {
    if i == |st.retired| ||
       (st.retired[i] in st.entries && st.entries[st.retired[i]].key == k && st.entries[st.retired[i]].pins > 0) then i
    else OldVersion(st, k, i + 1)
  }

  function Unpin(st: State, k: Key): State {
    if Pins(st, k) > 0 then
      var id := st.index[k];
      st.(entries := st.entries[id := st.entries[id].(pins := st.entries[id].pins - 1)])
    else
      var j := OldVersion(st, k, 0);
      if j == |st.retired| then st
      else
        var id := st.retired[j];
        var e := st.entries[id];
        var st1 := st.(entries := st.entries[id := e.(pins := e.pins - 1)]);
        if e.pins == 1 then FreeEntry(st1.(retired := st.retired[..j] + st.retired[j + 1..]), id) else st1
  }

  function UnpinAll(st: State, ks: seq<Key>): State
    decreases |ks|
  {
    if ks == [] then st else UnpinAll(Unpin(st, ks[0]), ks[1..])
  }

  function Release(st: State, lid: nat): (bool, State) {
    if lid in st.leases then (true, UnpinAll(st.(leases := st.leases - {lid}), st.leases[lid].keys)) else (false, st)
  }

  predicate Expired(st: State, now: real, lid: nat) { lid in st.leases && st.leases[lid].expires <= now }

  /** Release the leases that are due, oldest first; lease numbers are handed out in order. */
  function ExpireFrom(st: State, now: real, lid: nat): State
    decreases st.nextLease - lid
  {
    if lid >= st.nextLease then st
    else
      var st' := if Expired(st, now, lid) then Release(st, lid).1 else st;
      if st'.nextLease == st.nextLease then ExpireFrom(st', now, lid + 1) else st'
  }

  // ------------------------------------------------------------------ write

  datatype Status = New(id: Id) | Exists | Busy | Full

  function AllocateOne(st: State, k: Key, size: int, s: Session, skip: bool): (Status, State) {
    if skip && k in st.index then (Exists, st.(lru := Without(st.lru, k) + [k]))
    else if skip && (exists w :: w in st.writing && w.0 == k) then (Busy, st)
    else if (k, s) in st.writing then (Busy, st)
    else
      var (off, st') := Allocate(st, size);
      if off.None? then (Full, st')
      else
        var e := Entry(k, off.value, size, Writing(s), 0);
        (New(st'.nextId),
         st'.(entries := st'.entries[st'.nextId := e], writing := st'.writing[(k, s) := st'.nextId], nextId := st'.nextId + 1))
  }

  function AllocateForWrite(st: State, ks: seq<Key>, size: int, s: Session, skip: bool): (seq<Status>, State)
    decreases |ks|
  {
    if ks == [] then ([], st)
    else
      var (a, st1) := AllocateOne(st, ks[0], size, s, skip);
      var (rest, st2) := AllocateForWrite(st1, ks[1..], size, s, skip);
      ([a] + rest, st2)
  }

  /** Take the old version of `k` out of the index: retired while it is pinned, freed otherwise. */
  function Displace(st: State, k: Key): State {
    if !Cached(st, k) then st
    else if st.entries[st.index[k]].pins > 0 then
      var id := st.index[k];
      st.(lru := Without(st.lru, k), index := st.index - {k}, retired := st.retired + [id],
          entries := st.entries[id := st.entries[id].(phase := Retired)])
    else Drop(st, k)
  }

  function CommitOne(st: State, k: Key, s: Session): State {
    if (k, s) !in st.writing || st.writing[(k, s)] !in st.entries then st
    else
      var id := st.writing[(k, s)];
      var st1 := Displace(st.(writing := st.writing - {(k, s)}), k);
      if id !in st1.entries then st1
      else
        st1.(index := st1.index[k := id], lru := Without(st1.lru, k) + [k],
             entries := st1.entries[id := st1.entries[id].(phase := Ready)])
  }

  function Commit(st: State, ks: seq<Key>, s: Session): State
    decreases |ks|
  {
    if ks == [] then st else Commit(CommitOne(st, ks[0], s), ks[1..], s)
  }

  function AbortOne(st: State, k: Key, s: Session): State {
    if (k, s) !in st.writing || st.writing[(k, s)] !in st.entries then st
    else FreeEntry(st.(writing := st.writing - {(k, s)}), st.writing[(k, s)])
  }

  function Abort(st: State, ks: seq<Key>, s: Session): State
    decreases |ks|
  {
    if ks == [] then st else Abort(AbortOne(st, ks[0], s), ks[1..], s)
  }
}
