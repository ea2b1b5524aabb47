/** The buffer pool all `ReadStream`s share: reads reserve a part of it, short reads give the rest
    back, and what has been read is handed to consumers without copying. */
module ReadPool {
  import opened Common

  const MIN_POOL_SPACE: nat := 128

  /** A buffer: its identity, and where it lies in memory. */
  datatype Pool = Pool(id: nat, base: nat, len: nat)

  /** A read under way and the part of a pool reserved for it. */
  datatype Res = Res(pool: Pool, start: nat, toRead: nat)

  /** A slice pushed to a consumer, and what was in it then. */
  datatype Chunk = Chunk(at: nat, data: Bytes)

  /** - bytes: all memory allocated so far
      - pool, used: the current pool and how much of it has been given out
      - frags: `poolFragments`
      - pending: the reads under way; chunks: everything consumers hold */
  datatype Mem = Mem(
    bytes: Bytes,
    nextId: nat,
    pool: Option<Pool>,
    used: nat,
    frags: seq<Pool>,
    pending: seq<Res>,
    chunks: seq<Chunk>)

  function Empty(): Mem {
    Mem([], 0, None, 0, [], [], [])
  }

  /** `(n + 7) & ~7` */
  function RoundUp(n: nat): (r: nat)
    ensures n <= r < n + 8 && r % 8 == 0
    ensures n % 8 == 0 ==> r == n
  {
    (n + 7) / 8 * 8
  }

  /** `n & ~7` */
  function RoundDown(n: nat): (r: nat)
    ensures n - 8 < r <= n && r % 8 == 0
  {
    n / 8 * 8
  }

  /** `allocNewPool`: the fragment given back last, or new memory. */
  function NewPool(s: Mem, size: nat): Mem {
    if s.frags != [] then
      s.(pool := Some(s.frags[|s.frags| - 1]), frags := s.frags[..|s.frags| - 1], used := 0)
    else
      s.(bytes := s.bytes + seq(size, _ => 0), pool := Some(Pool(s.nextId, |s.bytes|, size)), nextId := s.nextId + 1,
         used := 0)
  }

  predicate Roomy(s: Mem) {
    s.pool.Some? && s.pool.value.len - s.used >= MIN_POOL_SPACE
  }

  function WithRoom(s: Mem, size: nat): (r: Mem)
    ensures r.pool.Some?
  {
    if Roomy(s) then s else NewPool(s, size)
  }

  /** How much the next read asks for; `want` is what the stream wants up to its end. */
  function ToRead(s: Mem, want: int): int
    requires s.pool.Some?
  {
    var space := s.pool.value.len - s.used;
    if want < space then want else space
  }

  /** `_read` */
  function Read(s: Mem, size: nat, want: int): Mem {
    var t := WithRoom(s, size);
    var n := ToRead(t, want);
    if n <= 0 then t
    else t.(pending := t.pending + [Res(t.pool.value, t.used, n)], used := RoundUp(t.used + n))
  }

  function Without<T>(xs: seq<T>, i: nat): seq<T>
    requires i < |xs|
  {
    xs[..i] + xs[i + 1..]
  }

  /** `data` put into memory at `at`. */
  function Written(bytes: Bytes, at: nat, data: Bytes): (r: Bytes)
    requires at + |data| <= |bytes|
    ensures |r| == |bytes|
  {
    bytes[..at] + data + bytes[at + |data|..]
  }

  predicate CanComplete(s: Mem, i: nat, data: Bytes) {
    && i < |s.pending| && |data| <= s.pending[i].toRead
    && s.pending[i].pool.base + s.pending[i].start + |data| <= |s.bytes|
  }

  predicate Rewinds(s: Mem, r: Res) {
    s.pool == Some(r.pool) && s.used == r.start + r.toRead
  }

  /** What a read leaves unused becomes a fragment if it is large enough. */
  function Leftover(s: Mem, r: Res, n: nat): seq<Pool> {
    var alignedEnd, alignedStart := RoundDown(r.start + r.toRead), RoundUp(r.start + n);
    if alignedEnd - alignedStart >= MIN_POOL_SPACE
    then [Pool(s.nextId, r.pool.base + alignedStart, alignedEnd - alignedStart)]
    else []
  }

  /** The callback of a read that got `data`. */
  function Complete(s: Mem, i: nat, data: Bytes): Mem
    requires CanComplete(s, i, data)
  {
    var r := s.pending[i];
    var at := r.pool.base + r.start;
    s.(bytes := Written(s.bytes, at, data),
       pending := Without(s.pending, i),
       used := if Rewinds(s, r) then RoundUp(r.start + |data|) else s.used,
       frags := if Rewinds(s, r) then s.frags else s.frags + Leftover(s, r, |data|),
       nextId := s.nextId + 1,
       chunks := if data == [] then s.chunks else s.chunks + [Chunk(at, data)])
  }

  /** The callback of a read that failed: its part of the pool is not given back. */
  function Fail(s: Mem, i: nat): Mem
    requires i < |s.pending|
  {
    s.(pending := Without(s.pending, i))
  }

  // ----- Who owns a byte of memory -----

  function InRes(r: Res, a: nat): bool {
    r.pool.base + r.start <= a < r.pool.base + r.start + r.toRead
  }

  function InPool(p: Pool, a: nat): bool {
    p.base <= a < p.base + p.len
  }

  function InChunk(c: Chunk, a: nat): bool {
    c.at <= a < c.at + |c.data|
  }

  function InTail(s: Mem, a: nat): bool {
    s.pool.Some? && s.pool.value.base + s.used <= a < s.pool.value.base + s.pool.value.len
  }

  function Count<T>(xs: seq<T>, has: (T, nat) -> bool, a: nat): nat {
    if xs == [] then 0
    else Count(xs[..|xs| - 1], has, a) + if has(xs[|xs| - 1], a) then 1 else 0
  }

  /** How many reads, consumers, fragments and free tails claim this byte. */
  function Owners(s: Mem, a: nat): nat {
    Count(s.pending, InRes, a) + Count(s.frags, InPool, a) + Count(s.chunks, InChunk, a)
    + if InTail(s, a) then 1 else 0
  }

  lemma CountAppend<T>(xs: seq<T>, x: T, has: (T, nat) -> bool, a: nat)
    ensures Count(xs + [x], has, a) == Count(xs, has, a) + if has(x, a) then 1 else 0
  {
    assert (xs + [x])[..|xs|] == xs;
  }

  lemma {:induction false} CountWithout<T>(xs: seq<T>, i: nat, has: (T, nat) -> bool, a: nat)
    requires i < |xs|
    ensures Count(Without(xs, i), has, a) + (if has(xs[i], a) then 1 else 0) == Count(xs, has, a)
    decreases |xs|
  {
    var init, last := xs[..|xs| - 1], xs[|xs| - 1];
    if i == |xs| - 1 {
      assert Without(xs, i) == init;
    } else {
      CountWithout(init, i, has, a);
      assert Without(xs, i) == Without(init, i) + [last];
      CountAppend(Without(init, i), last, has, a);
    }
  }

  lemma {:induction false} CountPositive<T>(xs: seq<T>, i: nat, has: (T, nat) -> bool, a: nat)
    requires i < |xs| && has(xs[i], a)
    ensures Count(xs, has, a) >= 1
    decreases |xs|
  {
    if i < |xs| - 1 {
      CountPositive(xs[..|xs| - 1], i, has, a);
    }
  }

  // ----- The invariant -----

  /** No byte has two owners, and only allocated memory is owned. */
  ghost predicate Exclusive(s: Mem) {
    && (forall a: nat :: Owners(s, a) <= 1)
    && (forall a: nat | a >= |s.bytes| :: Owners(s, a) == 0)
  }

  ghost predicate Shaped(s: Mem) {
    && s.used % 8 == 0
    && (s.pool.Some? ==> s.pool.value.base + s.pool.value.len <= |s.bytes|)
    && (forall p <- s.frags :: p.base + p.len <= |s.bytes|)
    && (forall r <- s.pending :: r.start + r.toRead <= r.pool.len && r.pool.base + r.pool.len <= |s.bytes|
                               && r.start % 8 == 0)
  }

  /** What a consumer was given is still there. */
  ghost predicate Intact(s: Mem) {
    forall c <- s.chunks :: c.at + |c.data| <= |s.bytes| && s.bytes[c.at..c.at + |c.data|] == c.data
  }

  ghost predicate Inv(s: Mem) {
    Exclusive(s) && Shaped(s) && Intact(s)
  }

  lemma NewPoolKeeps(s: Mem, size: nat)
    requires Inv(s)
    ensures Inv(NewPool(s, size))
  {
    var t := NewPool(s, size);
    forall a: nat ensures Owners(t, a) <= 1 && (a >= |t.bytes| ==> Owners(t, a) == 0) {
      assert Owners(s, a) <= 1 && (a >= |s.bytes| ==> Owners(s, a) == 0);
    }
  }

  lemma ReserveKeeps(t: Mem, want: int)
    requires Inv(t) && t.pool.Some? && ToRead(t, want) > 0
    ensures var n := ToRead(t, want);
            Inv(t.(pending := t.pending + [Res(t.pool.value, t.used, n)], used := RoundUp(t.used + n)))
  {
    var n := ToRead(t, want);
    var r := Res(t.pool.value, t.used, n);
    var u := t.(pending := t.pending + [r], used := RoundUp(t.used + n));
    forall a: nat ensures Owners(u, a) <= 1 && (a >= |u.bytes| ==> Owners(u, a) == 0) {
      assert Owners(t, a) <= 1 && (a >= |t.bytes| ==> Owners(t, a) == 0);
      CountAppend(t.pending, r, InRes, a);
    }
  }

  lemma ReadKeeps(s: Mem, size: nat, want: int)
    requires Inv(s)
    ensures Inv(Read(s, size, want))
  {
    if !Roomy(s) {
      NewPoolKeeps(s, size);
    }
    var t := WithRoom(s, size);
    hide Inv;
    if ToRead(t, want) > 0 {
      ReserveKeeps(t, want);
    }
  }

  /** Who owns a byte after a completed read, by what the read had and what became of it. */
  lemma OwnersAfter(s: Mem, i: nat, data: Bytes, a: nat)
    requires CanComplete(s, i, data)
    ensures var r := s.pending[i];
            var t := Complete(s, i, data);
            var back := if Rewinds(s, r) then [] else Leftover(s, r, |data|);
            Owners(t, a) == Owners(s, a) - (if InRes(r, a) then 1 else 0)
                            - (if InTail(s, a) then 1 else 0) + (if InTail(t, a) then 1 else 0)
                            + (if back != [] && InPool(back[0], a) then 1 else 0)
                            + if InChunk(Chunk(r.pool.base + r.start, data), a) then 1 else 0
  {
    hide Written, RoundUp, RoundDown, InTail, Rewinds, Leftover, InRes, InPool, InChunk;
    var r := s.pending[i];
    CountWithout(s.pending, i, InRes, a);
    CountAppend(s.chunks, Chunk(r.pool.base + r.start, data), InChunk, a);
    NothingIn(Chunk(r.pool.base + r.start, []), a);
    if !Rewinds(s, r) {
      LeftoverCounts(s, r, |data|, a);
    }
    hide Count;
  }

  lemma NothingIn(c: Chunk, a: nat)
    requires c.data == []
    ensures !InChunk(c, a)
  {
  }

  lemma LeftoverCounts(s: Mem, r: Res, n: nat, a: nat)
    ensures var back := Leftover(s, r, n);
            Count(s.frags + back, InPool, a)
            == Count(s.frags, InPool, a) + if back != [] && InPool(back[0], a) then 1 else 0
  {
    hide RoundUp, RoundDown;
    if Leftover(s, r, n) != [] {
      CountAppend(s.frags, Leftover(s, r, n)[0], InPool, a);
    } else {
      assert s.frags + [] == s.frags;
    }
  }

  /** Completing a read hands its bytes on: none gets an owner it did not have. */
  lemma CompleteOwners(s: Mem, i: nat, data: Bytes, a: nat)
    requires Shaped(s) && CanComplete(s, i, data)
    ensures Owners(Complete(s, i, data), a) <= Owners(s, a)
  {
    OwnersAfter(s, i, data, a);
    assert s.pending[i] in s.pending;
    hide Owners, Written;
  }

  /** Two owners of different kinds for one byte. */
  lemma NotOverwritten(s: Mem, i: nat, j: nat, a: nat)
    requires Exclusive(s) && i < |s.pending| && j < |s.chunks| && InRes(s.pending[i], a)
    ensures !InChunk(s.chunks[j], a)
  {
    assert Owners(s, a) <= 1;
    CountPositive(s.pending, i, InRes, a);
    if InChunk(s.chunks[j], a) {
      CountPositive(s.chunks, j, InChunk, a);
    }
  }

  lemma CompleteIntact(s: Mem, i: nat, data: Bytes)
    requires Inv(s) && CanComplete(s, i, data)
    ensures Intact(Complete(s, i, data))
  {
    var r := s.pending[i];
    var at := r.pool.base + r.start;
    var t := Complete(s, i, data);
    forall c | c in t.chunks ensures c.at + |c.data| <= |t.bytes| && t.bytes[c.at..c.at + |c.data|] == c.data {
      if c in s.chunks {
        var j :| 0 <= j < |s.chunks| && s.chunks[j] == c;
        forall a | c.at <= a < c.at + |c.data| ensures t.bytes[a] == s.bytes[a] {
          if at <= a < at + |data| {
            NotOverwritten(s, i, j, a);
          }
        }
        assert t.bytes[c.at..c.at + |c.data|] == s.bytes[c.at..c.at + |c.data|];
      } else {
        assert c == Chunk(at, data);
      }
    }
  }

  lemma CompleteKeeps(s: Mem, i: nat, data: Bytes)
    requires Inv(s) && CanComplete(s, i, data)
    ensures Inv(Complete(s, i, data))
  {
    var t := Complete(s, i, data);
    forall a: nat ensures Owners(t, a) <= 1 && (a >= |t.bytes| ==> Owners(t, a) == 0) {
      CompleteOwners(s, i, data, a);
      assert Owners(s, a) <= 1 && (a >= |s.bytes| ==> Owners(s, a) == 0);
    }
    CompleteIntact(s, i, data);
    CompleteShaped(s, i, data);
  }

  lemma CompleteShaped(s: Mem, i: nat, data: Bytes)
    requires Shaped(s) && CanComplete(s, i, data)
    ensures Shaped(Complete(s, i, data))
  {
    var t := Complete(s, i, data);
    assert s.pending[i] in s.pending;
    forall p | p in t.frags ensures p.base + p.len <= |t.bytes| {
      if p !in s.frags {
        assert p in Leftover(s, s.pending[i], |data|);
      }
    }
    forall r | r in t.pending ensures r in s.pending {
    }
  }

  lemma FailKeeps(s: Mem, i: nat)
    requires Inv(s) && i < |s.pending|
    ensures Inv(Fail(s, i))
  {
    var t := Fail(s, i);
    forall a: nat ensures Owners(t, a) <= 1 && (a >= |t.bytes| ==> Owners(t, a) == 0) {
      CountWithout(s.pending, i, InRes, a);
      assert Owners(s, a) <= 1 && (a >= |s.bytes| ==> Owners(s, a) == 0);
    }
    forall r | r in t.pending ensures r in s.pending {
    }
  }

  /** The memory of a read that failed is nobody's from then on. */
  lemma FailedIsLost(s: Mem, i: nat, a: nat)
    requires Inv(s) && i < |s.pending| && InRes(s.pending[i], a)
    ensures Owners(Fail(s, i), a) == 0
  {
    assert Owners(s, a) <= 1;
    CountWithout(s.pending, i, InRes, a);
    hide Count, Inv;
  }

  // ----- Any interleaving -----

  /** A stream asks for more; the server's answer to a read; an error instead. */
  datatype Event = Asks(size: nat, want: int) | Answers(i: nat, data: Bytes) | Fails(i: nat)

  predicate Possible(s: Mem, e: Event) {
    match e
    case Asks(_, _) => true
    case Answers(i, data) => CanComplete(s, i, data)
    case Fails(i) => i < |s.pending|
  }

  function After(s: Mem, e: Event): Mem
    requires Possible(s, e)
  {
    match e
    case Asks(size, want) => Read(s, size, want)
    case Answers(i, data) => Complete(s, i, data)
    case Fails(i) => Fail(s, i)
  }

  function Exec(events: seq<Event>): Option<Mem>
    decreases |events|
  {
    if events == [] then Some(Empty())
    else
      var before := Exec(events[..|events| - 1]);
      var e := events[|events| - 1];
      if before.None? || !Possible(before.value, e) then None else Some(After(before.value, e))
  }

  lemma {:induction false} AlwaysInv(events: seq<Event>)
    requires Exec(events).Some?
    ensures Inv(Exec(events).value)
    decreases |events|
  {
    if events != [] {
      var init := events[..|events| - 1];
      AlwaysInv(init);
      var s := Exec(init).value;
      hide Inv, Read, Complete, Fail;
      match events[|events| - 1]
      case Asks(size, want) => ReadKeeps(s, size, want);
      case Answers(i, data) => CompleteKeeps(s, i, data);
      case Fails(i) => FailKeeps(s, i);
    } else {
      hide Exec;
    }
  }

  /** A stretch of memory. */
  datatype Area = Area(at: nat, len: nat)

  predicate InArea(x: Area, a: nat) {
    x.at <= a < x.at + x.len
  }

  predicate Overlap(x: Area, y: Area) {
    x.at < y.at + y.len && y.at < x.at + x.len && x.len > 0 && y.len > 0
  }

  function ResArea(r: Res): Area { Area(r.pool.base + r.start, r.toRead) }
  function PoolArea(p: Pool): Area { Area(p.base, p.len) }
  function ChunkArea(c: Chunk): Area { Area(c.at, |c.data|) }

  function Each<T>(xs: seq<T>, area: T -> Area): seq<Area> {
    if xs == [] then [] else Each(xs[..|xs| - 1], area) + [area(xs[|xs| - 1])]
  }

  /** The rest of the current pool. */
  function Tail(s: Mem): seq<Area> {
    if s.pool.Some? && s.used < s.pool.value.len
    then [Area(s.pool.value.base + s.used, s.pool.value.len - s.used)]
    else []
  }

  /** Everything in use or to be used: the reads under way, the fragments, what consumers hold and
      the rest of the current pool. */
  function Areas(s: Mem): seq<Area> {
    Each(s.pending, ResArea) + Each(s.frags, PoolArea) + Each(s.chunks, ChunkArea) + Tail(s)
  }

  lemma {:induction false} CountEach<T(!new)>(xs: seq<T>, area: T -> Area, has: (T, nat) -> bool, a: nat)
    requires forall x: T :: has(x, a) == InArea(area(x), a)
    ensures Count(Each(xs, area), InArea, a) == Count(xs, has, a)
    decreases |xs|
  {
    if xs != [] {
      CountEach(xs[..|xs| - 1], area, has, a);
      CountAppend(Each(xs[..|xs| - 1], area), area(xs[|xs| - 1]), InArea, a);
    }
  }

  lemma {:induction false} CountConcat<T>(xs: seq<T>, ys: seq<T>, has: (T, nat) -> bool, a: nat)
    ensures Count(xs + ys, has, a) == Count(xs, has, a) + Count(ys, has, a)
    decreases |ys|
  {
    if ys == [] {
      assert xs + ys == xs;
    } else {
      CountConcat(xs, ys[..|ys| - 1], has, a);
      assert xs + ys == (xs + ys[..|ys| - 1]) + [ys[|ys| - 1]];
      CountAppend(xs + ys[..|ys| - 1], ys[|ys| - 1], has, a);
    }
  }

  lemma OwnersOfAreas(s: Mem, a: nat)
    ensures Count(Areas(s), InArea, a) == Owners(s, a)
  {
    var p, f, c := Each(s.pending, ResArea), Each(s.frags, PoolArea), Each(s.chunks, ChunkArea);
    CountEach(s.pending, ResArea, InRes, a);
    CountEach(s.frags, PoolArea, InPool, a);
    CountEach(s.chunks, ChunkArea, InChunk, a);
    CountConcat(p, f, InArea, a);
    CountConcat(p + f, c, InArea, a);
    CountConcat(p + f + c, Tail(s), InArea, a);
    CountTail(s, a);
  }

  lemma CountTail(s: Mem, a: nat)
    ensures Count(Tail(s), InArea, a) == if InTail(s, a) then 1 else 0
  {
    if Tail(s) != [] {
      assert Tail(s)[..0] == [];
    }
  }

  lemma {:induction false} CountTwo<T>(xs: seq<T>, i: nat, j: nat, has: (T, nat) -> bool, a: nat)
    requires i < j < |xs| && has(xs[i], a) && has(xs[j], a)
    ensures Count(xs, has, a) >= 2
    decreases |xs|
  {
    var init := xs[..|xs| - 1];
    if j == |xs| - 1 {
      CountPositive(init, i, has, a);
    } else {
      CountTwo(init, i, j, has, a);
    }
  }

  /** No two of them overlap. */
  ghost predicate Apart(areas: seq<Area>) {
    forall i, j | 0 <= i < j < |areas| :: !Overlap(areas[i], areas[j])
  }

  /** In every interleaving of reads of any streams, with any of them coming back short or failing:
      the memory of the reads under way, the fragments to be reused, the chunks consumers hold and
      the rest of the current pool is pairwise disjoint, and all of it allocated. */
  lemma NothingShared(events: seq<Event>)
    requires Exec(events).Some?
    ensures var s := Exec(events).value;
            Apart(Areas(s)) && forall x <- Areas(s) :: x.len > 0 ==> x.at + x.len <= |s.bytes|
  {
    AlwaysInv(events);
    var s := Exec(events).value;
    assert Exclusive(s);
    hide Exec, Inv, Owners, Areas;
    var areas := Areas(s);
    forall i, j | 0 <= i < j < |areas| ensures !Overlap(areas[i], areas[j]) {
      if Overlap(areas[i], areas[j]) {
        var a := if areas[i].at < areas[j].at then areas[j].at else areas[i].at;
        OwnersOfAreas(s, a);
        CountTwo(areas, i, j, InArea, a);
      }
    }
    forall x | x in areas && x.len > 0 ensures x.at + x.len <= |s.bytes| {
      var i :| 0 <= i < |areas| && areas[i] == x;
      var last := x.at + x.len - 1;
      OwnersOfAreas(s, last);
      CountPositive(areas, i, InArea, last);
    }
  }

  /** What was pushed to a consumer stays what it was, whatever is read later. */
  lemma {:induction false} DeliveredStays(events: seq<Event>, more: seq<Event>)
    requires Exec(events + more).Some?
    ensures Exec(events).Some?
    ensures var s, t := Exec(events).value, Exec(events + more).value;
            && s.chunks <= t.chunks
            && forall c <- s.chunks ::
                 && c.at + |c.data| <= |s.bytes| <= |t.bytes|
                 && s.bytes[c.at..c.at + |c.data|] == c.data == t.bytes[c.at..c.at + |c.data|]
    decreases |more|
  {
    var all := events + more;
    if more == [] {
      assert all == events;
      AlwaysInv(events);
    } else {
      var init := more[..|more| - 1];
      assert all[..|all| - 1] == events + init;
      DeliveredStays(events, init);
      AlwaysInv(all);
      AlwaysInv(events);
      OnlyMoreChunks(Exec(events + init).value, all[|all| - 1]);
    }
  }

  lemma OnlyMoreChunks(s: Mem, e: Event)
    requires Possible(s, e)
    ensures s.chunks <= After(s, e).chunks && |s.bytes| <= |After(s, e).bytes|
  {
  }

  // ----- What is delivered, asked for and given back -----

  /** The data of the answers that had any. */
  function Answered(events: seq<Event>): seq<Bytes> {
    if events == [] then []
    else
      var last := events[|events| - 1];
      Answered(events[..|events| - 1]) + if last.Answers? && last.data != [] then [last.data] else []
  }

  function Datas(chunks: seq<Chunk>): seq<Bytes> {
    if chunks == [] then [] else Datas(chunks[..|chunks| - 1]) + [chunks[|chunks| - 1].data]
  }

  lemma DatasAppend(chunks: seq<Chunk>, c: Chunk)
    ensures Datas(chunks + [c]) == Datas(chunks) + [c.data]
  {
    assert (chunks + [c])[..|chunks|] == chunks;
  }

  /** Consumers are given exactly the data that was read, in the order in which it came. */
  lemma {:induction false} EveryAnswerIsDelivered(events: seq<Event>)
    requires Exec(events).Some?
    ensures Datas(Exec(events).value.chunks) == Answered(events)
    decreases |events|
  {
    if events != [] {
      var init, last := events[..|events| - 1], events[|events| - 1];
      EveryAnswerIsDelivered(init);
      var s := Exec(init).value;
      ChunksAfter(s, last);
      hide After, Possible;
      if last.Answers? && last.data != [] {
        var r := s.pending[last.i];
        DatasAppend(s.chunks, Chunk(r.pool.base + r.start, last.data));
      }
    }
  }

  lemma ChunksAfter(s: Mem, e: Event)
    requires Possible(s, e)
    ensures After(s, e).chunks == if e.Answers? && e.data != []
              then s.chunks + [Chunk(s.pending[e.i].pool.base + s.pending[e.i].start, e.data)] else s.chunks
  {
  }

  /** Fragments are worth keeping. */
  ghost predicate Useful(s: Mem) {
    forall p <- s.frags :: p.len >= MIN_POOL_SPACE
  }

  lemma {:induction false} AlwaysUseful(events: seq<Event>)
    requires Exec(events).Some?
    ensures Useful(Exec(events).value)
    decreases |events|
  {
    if events != [] {
      AlwaysUseful(events[..|events| - 1]);
      UsefulAfter(Exec(events[..|events| - 1]).value, events[|events| - 1]);
      hide After, Possible, Useful;
    }
  }

  lemma UsefulAfter(s: Mem, e: Event)
    requires Possible(s, e) && Useful(s)
    ensures Useful(After(s, e))
  {
    hide Written, RoundUp, RoundDown;
  }

  /** In every run, a stream that wants more is given room for it: all it wants or at least as much as
      makes a pool worth using. */
  lemma EveryReadGetsRoom(events: seq<Event>, size: nat, want: int)
    requires Exec(events).Some? && size > 0 && want > 0
    ensures var s := Exec(events).value;
            var t := Read(s, size, want);
            && |t.pending| == |s.pending| + 1 && t.pending[..|s.pending|] == s.pending
            && var n := t.pending[|s.pending|].toRead;
               0 < n <= want && (n == want || n >= MIN_POOL_SPACE || n >= size)
  {
    AlwaysUseful(events);
    hide Exec, RoundUp;
  }

  /** New memory is taken only when the current pool is used up and no fragment is left, and then just what
      the stream reads at once. */
  lemma FragmentsFirst(s: Mem, e: Event)
    requires Possible(s, e) && |After(s, e).bytes| > |s.bytes|
    ensures e.Asks? && |After(s, e).bytes| == |s.bytes| + e.size
    ensures s.frags == [] && (s.pool.Some? ==> s.pool.value.len - s.used < MIN_POOL_SPACE)
  {
    hide RoundUp, RoundDown;
  }

  /** Of what a read had reserved and did not use, only what alignment costs is lost, unless all of it
      is too little to be worth keeping. */
  lemma LittleIsLost(s: Mem, i: nat, data: Bytes, a: nat)
    requires Shaped(s) && CanComplete(s, i, data)
    requires Owners(s, a) == 1 && Owners(Complete(s, i, data), a) == 0
    ensures var r := s.pending[i];
            var first, end := r.pool.base + r.start + |data|, r.pool.base + r.start + r.toRead;
            && first <= a < end
            && (a < first + 8 || a >= end - 8 || end - first < MIN_POOL_SPACE + 16)
  {
    var r, t := s.pending[i], Complete(s, i, data);
    assert r in s.pending;
    OwnersAfter(s, i, data, a);
    TailAfter(s, i, data, a);
    if Rewinds(s, r) {
      hide *;
    } else {
      BackAt(s, r, |data|, a);
      hide *;
    }
  }

  /** The free tail after a completed read. */
  lemma TailAfter(s: Mem, i: nat, data: Bytes, a: nat)
    requires Shaped(s) && CanComplete(s, i, data)
    ensures var r := s.pending[i];
            var t := Complete(s, i, data);
            && (InTail(s, a) ==> InTail(t, a))
            && (!Rewinds(s, r) ==> InTail(t, a) == InTail(s, a))
            && (Rewinds(s, r) && InRes(r, a) ==> InTail(t, a) || a < r.pool.base + r.start + |data| + 8)
            && (InRes(r, a) <==> r.pool.base + r.start <= a < r.pool.base + r.start + r.toRead)
            && (InChunk(Chunk(r.pool.base + r.start, data), a)
                <==> r.pool.base + r.start <= a < r.pool.base + r.start + |data|)
  {
    var r := s.pending[i];
    assert r in s.pending;
    if Rewinds(s, r) {
      RoundUpLeast(r.start + |data|, s.used);
    }
    hide Written, Leftover, RoundUp, RoundDown, Shaped;
  }

  lemma RoundUpLeast(n: nat, m: nat)
    requires n <= m && m % 8 == 0
    ensures RoundUp(n) <= m
  {
  }

  /** What is given back of a read that is not the last one in its pool. */
  lemma BackAt(s: Mem, r: Res, n: nat, a: nat)
    requires n <= r.toRead
    ensures var back := Leftover(s, r, n);
            var first, end := r.pool.base + r.start + n, r.pool.base + r.start + r.toRead;
            if back == [] then end - first < MIN_POOL_SPACE + 16
            else first + 8 <= a < end - 8 ==> InPool(back[0], a)
  {
    hide RoundUp, RoundDown;
  }

  // ----- The module's variables -----

  /** All memory, the reads whose callbacks are to come, and what `push` has been called with. */
  datatype World = World(bytes: Bytes, nextId: nat, pending: seq<Res>, chunks: seq<Chunk>)

  class Streams {
    var pool: Option<Pool>
    var used: nat
    var poolFragments: seq<Pool>
    var world: World

    ghost function View(): Mem
      reads this
    {
      Mem(world.bytes, world.nextId, pool, used, poolFragments, world.pending, world.chunks)
    }

    constructor ()
      ensures View() == Empty()
    {
      pool, used, poolFragments, world := None, 0, [], World([], 0, [], []);
    }

    method AllocNewPool(poolSize: nat)
      modifies this
      ensures View() == NewPool(old(View()), poolSize)
    {
      if |poolFragments| > 0 {
        pool := Some(poolFragments[|poolFragments| - 1]);
        poolFragments := poolFragments[..|poolFragments| - 1];
      } else {
        pool := Some(Pool(world.nextId, |world.bytes|, poolSize));
        world := world.(nextId := world.nextId + 1, bytes := world.bytes + seq(poolSize, _ => 0));
      }
      used := 0;
    }

    /** `_read(n)`; `left` is how much there is up to the stream's end, if it has one. Returns
        whether a read was sent. */
    method StartRead(highWaterMark: nat, n: int, left: Option<int>) returns (sent: bool)
      modifies this
      ensures var want := if left.Some? && left.value < n then left.value else n;
              && View() == Read(old(View()), highWaterMark, want)
              && sent == (ToRead(WithRoom(old(View()), highWaterMark), want) > 0)
    {
      hide RoundUp, NewPool;
      if pool.None? || pool.value.len - used < MIN_POOL_SPACE {
        AllocNewPool(highWaterMark);
      }
      assert View() == WithRoom(old(View()), highWaterMark);
      hide WithRoom;
      var thisPool := pool.value;
      var toRead := if pool.value.len - used < n then pool.value.len - used else n;
      var start := used;
      if left.Some? && left.value < toRead {
        toRead := left.value;
      }
      if toRead <= 0 {
        return false;
      }
      world := world.(pending := world.pending + [Res(thisPool, start, toRead)]);
      used := RoundUp(used + toRead);
      return true;
    }

    /** What a read leaves unused. */
    method GiveBack(res: Res, bytesRead: nat)
      requires bytesRead <= res.toRead
      modifies this`used, this`poolFragments
      ensures var s := old(View());
              && used == (if Rewinds(s, res) then RoundUp(res.start + bytesRead) else s.used)
              && poolFragments == if Rewinds(s, res) then s.frags else s.frags + Leftover(s, res, bytesRead)
    {
      hide RoundUp, RoundDown;
      if res.start + res.toRead == used && pool == Some(res.pool) {
        used := RoundUp(used + bytesRead - res.toRead);
      } else {
        var alignedEnd := RoundDown(res.start + res.toRead);
        var alignedStart := RoundUp(res.start + bytesRead);
        if alignedEnd - alignedStart >= MIN_POOL_SPACE {
          poolFragments := poolFragments
                           + [Pool(world.nextId, res.pool.base + alignedStart, alignedEnd - alignedStart)];
        } else {
          assert poolFragments + [] == poolFragments;
        }
      }
    }

    /** The callback of the `i`-th read under way, after the SFTP layer has put `data` into the pool. */
    method OnRead(i: nat, data: Bytes)
      requires CanComplete(View(), i, data)
      modifies this
      ensures View() == Complete(old(View()), i, data)
    {
      hide Written, RoundUp, RoundDown;
      var res := world.pending[i];
      var bytesRead := |data|;
      hide Leftover, Rewinds;
      GiveBack(res, bytesRead);
      world := world.(bytes := Written(world.bytes, res.pool.base + res.start, data),
                      pending := world.pending[..i] + world.pending[i + 1..]);
      world := world.(nextId := world.nextId + 1);
      if bytesRead > 0 {
        world := world.(chunks := world.chunks + [Chunk(res.pool.base + res.start, data)]);
      }
    }
  }
}
