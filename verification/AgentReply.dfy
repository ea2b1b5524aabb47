/** The answer of an SSH agent, read byte by byte. */
module AgentReply {
  import opened Common
  import opened FrameSpec

  const FAILURE: byte := 5
  const IDENTITIES_ANSWER: byte := 12
  const SIGN_RESPONSE: byte := 14

  /** `comment`: false, true, or the length of the comment being skipped. */
  datatype Comment = NotYet | LengthNext | Skipping(len: int)

  /** The variables of the closure; `done` is that the socket has been given up, after which no more
      data is looked at. */
  datatype Reader = Reader(
    kind: Option<byte>,
    count: nat,
    siglen: int,
    sig: Option<Bytes>,
    nkeys: int,
    keys: Option<seq<Option<Bytes>>>,
    keylen: int,
    key: Option<Bytes>,
    comment: Comment,
    comlen: int,
    failed: bool,
    done: bool)

  function Fresh(): Reader {
    Reader(None, 0, 0, None, 0, None, 0, None, NotYet, 0, false, false)
  }

  /** `Buffer.allocUnsafe(n)` and `new Array(n)`; a negative length throws, which ends it. */
  function Alloc<T>(n: int, fill: T): seq<T> {
    if n <= 0 then [] else seq(n, _ => fill)
  }

  /** Writing outside a buffer has no effect. */
  function Stored(buf: Bytes, i: nat, b: byte): Bytes {
    if i < |buf| then buf[i := b] else buf
  }

  function SignByte(s: Reader, b: byte): Reader {
    if s.sig.None? then
      var len := Shl8(s.siglen) + b as int;
      if s.count + 1 == 4 then s.(siglen := len, sig := Some(Alloc(len, 0)), count := 0)
      else s.(siglen := len, count := s.count + 1)
    else
      s.(sig := Some(Stored(s.sig.value, s.count, b)), count := s.count + 1, done := s.count + 1 == s.siglen)
  }

  function CountByte(s: Reader, b: byte): Reader {
    var n := Shl8(s.nkeys) + b as int;
    if s.count + 1 == 4 then s.(nkeys := n, keys := Some(Alloc(n, None)), count := 0, done := n == 0)
    else s.(nkeys := n, count := s.count + 1)
  }

  function KeyLenByte(s: Reader, b: byte): Reader {
    var len := Shl8(s.keylen) + b as int;
    if s.count + 1 == 4 then s.(keylen := len, key := Some(Alloc(len, 0)), count := 0)
    else s.(keylen := len, count := s.count + 1)
  }

  /** A key that is complete goes into the last place still free. */
  function KeyTaken(s: Reader, key: Bytes): Reader
    requires s.keys.Some?
  {
    var keys := s.keys.value;
    s.(keys := Some(if 1 <= s.nkeys <= |keys| then keys[s.nkeys - 1 := Some(key)] else keys),
       keylen := 0, count := 0, comment := LengthNext, nkeys := s.nkeys - 1,
       key := if s.nkeys == 1 then None else Some(key), done := s.nkeys == 1)
  }

  function KeyByte(s: Reader, b: byte): Reader
    requires s.key.Some? && s.keys.Some?
  {
    var key := Stored(s.key.value, s.count, b);
    if s.count + 1 != s.keylen then s.(key := Some(key), count := s.count + 1) else KeyTaken(s, key)
  }

  function CommentLenByte(s: Reader, b: byte): Reader {
    var len := Shl8(s.comlen) + b as int;
    if s.count + 1 != 4 then s.(comlen := len, count := s.count + 1)
    else
      s.(count := 0, comlen := 0, comment := if len > 0 then Skipping(len) else NotYet,
         key := if len > 0 then s.key else None)
  }

  function CommentByte(s: Reader): Reader
    requires s.comment.Skipping?
  {
    if s.count + 1 == s.comment.len then s.(comment := NotYet, count := 0, key := None)
    else s.(count := s.count + 1)
  }

  /** One byte of `ondata`. */
  function Step(s: Reader, b: byte): Reader {
    if s.done then s
    else if s.kind.None? then
      if s.count + 1 == 5 then s.(kind := Some(b), count := 0) else s.(count := s.count + 1)
    else if s.kind == Some(SIGN_RESPONSE) then SignByte(s, b)
    else if s.kind == Some(IDENTITIES_ANSWER) then
      if s.keys.None? then CountByte(s, b)
      else if s.key.None? then KeyLenByte(s, b)
      else if s.comment == NotYet then KeyByte(s, b)
      else if s.comment == LengthNext then CommentLenByte(s, b)
      else CommentByte(s)
    else if s.kind == Some(FAILURE) then s.(failed := true, done := true)
    else s
  }

  function Read(s: Reader, data: Bytes): Reader
    decreases |data|
  {
    if data == [] then s else Read(Step(s, data[0]), data[1..])
  }

  /** However the answer is cut. */
  lemma {:induction false} ReadInTwo(s: Reader, a: Bytes, b: Bytes)
    ensures Read(s, a + b) == Read(Read(s, a), b)
    decreases |a|
  {
    if a == [] {
      assert a + b == b;
    } else {
      assert (a + b)[0] == a[0] && (a + b)[1..] == a[1..] + b;
      ReadInTwo(Step(s, a[0]), a[1..], b);
    }
  }

  lemma {:induction false} DoneStays(s: Reader, data: Bytes)
    requires s.done
    ensures Read(s, data) == s
    decreases |data|
  {
    if data != [] {
      DoneStays(s, data[1..]);
    }
  }

  /** An answer of any other kind is never complete. */
  lemma {:induction false} OtherKindsAreIgnored(s: Reader, data: Bytes)
    requires s.kind.Some? && s.kind.value !in {FAILURE, IDENTITIES_ANSWER, SIGN_RESPONSE} && !s.done
    ensures Read(s, data) == s
    decreases |data|
  {
    if data != [] {
      OtherKindsAreIgnored(s, data[1..]);
    }
  }

  // ----- Lengths -----

  type int31 = n: nat | n < 0x8000_0000

  /** Four bytes shifted in one after another. */
  lemma ShiftedIn(n: int31)
    ensures var b := PutU32(n);
            Shl8(Shl8(Shl8(b[0] as int) + b[1] as int) + b[2] as int) + b[3] as int == n && Shl8(0) == 0
  {
    var b := PutU32(n);
    PartialWhole(b);
    assert b[..3][..2] == b[..2] && b[..2][..1] == b[..1] && b[..1][..0] == [];
    assert Partial(b[..1]) == b[0] as int;
    assert Partial(b[..2]) == Shl8(Partial(b[..1])) + b[1] as int;
    assert Partial(b[..3]) == Shl8(Partial(b[..2])) + b[2] as int;
  }

  /** Four bytes off the front. */
  lemma FourSteps(s: Reader, b: Bytes, rest: Bytes)
    requires |b| == 4
    ensures Read(s, b + rest) == Read(Step(Step(Step(Step(s, b[0]), b[1]), b[2]), b[3]), rest)
  {
    hide Step;
    OneStep(s, b + rest);
    assert (b + rest)[1..] == b[1..] + rest;
    OneStep(Step(s, b[0]), b[1..] + rest);
    assert (b[1..] + rest)[1..] == b[2..] + rest;
    OneStep(Step(Step(s, b[0]), b[1]), b[2..] + rest);
    assert (b[2..] + rest)[1..] == b[3..] + rest;
    OneStep(Step(Step(Step(s, b[0]), b[1]), b[2]), b[3..] + rest);
    assert (b[3..] + rest)[1..] == rest;
  }

  lemma OneStep(s: Reader, data: Bytes)
    requires data != []
    ensures Read(s, data) == Read(Step(s, data[0]), data[1..])
  {
  }

  /** Between two keys of a list. */
  predicate Between(s: Reader) {
    && s.kind == Some(IDENTITIES_ANSWER) && s.keys.Some? && s.key.None? && s.comment == NotYet
    && s.keylen == 0 && s.comlen == 0 && s.count == 0 && !s.done && 1 <= s.nkeys <= |s.keys.value|
  }

  lemma KeyLenRead(s: Reader, n: int31, rest: Bytes)
    requires Between(s)
    ensures Read(s, PutU32(n) + rest) == Read(s.(keylen := n, key := Some(Alloc(n, 0))), rest)
  {
    hide PutU32, Shl8, Alloc, Read, SignByte, CountByte, KeyByte, CommentLenByte, CommentByte;
    var b := PutU32(n);
    ShiftedIn(n);
    FourSteps(s, b, rest);
    var s1 := s.(keylen := b[0] as int, count := 1);
    var s2 := s1.(keylen := Shl8(s1.keylen) + b[1] as int, count := 2);
    var s3 := s2.(keylen := Shl8(s2.keylen) + b[2] as int, count := 3);
    assert Step(s, b[0]) == s1;
    assert Step(s1, b[1]) == s2 && Step(s2, b[2]) == s3;
    assert Step(s3, b[3]) == s.(keylen := n, key := Some(Alloc(n, 0)));
  }

  /** A key whose first `i` bytes have been stored. */
  predicate InKey(s: Reader, i: nat) {
    && s.kind == Some(IDENTITIES_ANSWER) && s.keys.Some? && s.key.Some? && s.comment == NotYet
    && s.keylen == |s.key.value| && s.comlen == 0 && s.count == i < |s.key.value| && !s.done
    && 1 <= s.nkeys <= |s.keys.value|
  }

  /** The state after the last byte of a key. */
  function KeyDone(s: Reader, key: Bytes): Reader
    requires s.keys.Some? && 1 <= s.nkeys <= |s.keys.value|
  {
    s.(keys := Some(s.keys.value[s.nkeys - 1 := Some(key)]), keylen := 0, count := 0, comment := LengthNext,
       nkeys := s.nkeys - 1, key := if s.nkeys == 1 then None else Some(key), done := s.nkeys == 1)
  }

  lemma {:induction false} KeyRead(s: Reader, i: nat, data: Bytes, rest: Bytes)
    requires InKey(s, i) && |data| == |s.key.value| - i
    ensures Read(s, data + rest) == Read(KeyDone(s, s.key.value[..i] + data), rest)
    decreases |data|
  {
    var d := data + rest;
    OneStep(s, d);
    assert d[1..] == data[1..] + rest;
    var key := s.key.value[i := data[0]];
    assert key[..i + 1] == s.key.value[..i] + [data[0]];
    assert s.key.value[..i] + data == key[..i + 1] + data[1..];
    if |data| == 1 {
      assert data[1..] + rest == rest;
      assert key == s.key.value[..i] + data;
      assert Step(s, d[0]) == KeyDone(s, key);
    } else {
      var t := s.(key := Some(key), count := i + 1);
      assert Step(s, d[0]) == t;
      KeyRead(t, i + 1, data[1..], rest);
      hide Read;
      assert KeyDone(t, key[..i + 1] + data[1..]) == KeyDone(s, key[..i + 1] + data[1..]);
    }
  }

  lemma CommentLenRead(s: Reader, n: int31, rest: Bytes)
    requires s.kind == Some(IDENTITIES_ANSWER) && s.keys.Some? && s.key.Some? && s.comment == LengthNext
    requires s.comlen == 0 && s.count == 0 && !s.done
    ensures Read(s, PutU32(n) + rest)
            == Read(s.(comment := if n > 0 then Skipping(n) else NotYet, key := if n > 0 then s.key else None), rest)
  {
    hide PutU32, Shl8, Read, SignByte, CountByte, KeyLenByte, KeyByte, CommentByte;
    var b := PutU32(n);
    ShiftedIn(n);
    FourSteps(s, b, rest);
    var s1 := s.(comlen := b[0] as int, count := 1);
    var s2 := s1.(comlen := Shl8(s1.comlen) + b[1] as int, count := 2);
    var s3 := s2.(comlen := Shl8(s2.comlen) + b[2] as int, count := 3);
    assert Step(s, b[0]) == s1;
    assert Step(s1, b[1]) == s2 && Step(s2, b[2]) == s3;
    assert Step(s3, b[3]) == s.(comment := if n > 0 then Skipping(n) else NotYet, key := if n > 0 then s.key else None);
  }

  lemma {:induction false} CommentRead(s: Reader, i: nat, data: Bytes, rest: Bytes)
    requires s.kind == Some(IDENTITIES_ANSWER) && s.keys.Some? && s.key.Some? && !s.done && s.count == i
    requires s.comment == Skipping(i + |data|) && |data| > 0
    ensures Read(s, data + rest) == Read(s.(comment := NotYet, count := 0, key := None), rest)
    decreases |data|
  {
    var d := data + rest;
    OneStep(s, d);
    assert d[1..] == data[1..] + rest;
    if |data| == 1 {
      assert data[1..] + rest == rest;
    } else {
      CommentRead(s.(count := i + 1), i + 1, data[1..], rest);
    }
  }

  // ----- A whole list -----

  datatype Identity = Identity(blob: Bytes, comment: Bytes)

  predicate Listable(ids: seq<Identity>) {
    |ids| < 0x8000_0000 && forall id <- ids :: |id.blob| < 0x8000_0000 && |id.comment| < 0x8000_0000
  }

  function PutIdentity(id: Identity): Bytes
    requires |id.blob| < 0x8000_0000 && |id.comment| < 0x8000_0000
  {
    PutU32(|id.blob|) + id.blob + PutU32(|id.comment|) + id.comment
  }

  function PutIdentities(ids: seq<Identity>): Bytes
    requires forall id <- ids :: |id.blob| < 0x8000_0000 && |id.comment| < 0x8000_0000
  {
    if ids == [] then [] else PutIdentity(ids[0]) + PutIdentities(ids[1..])
  }

  /** What is left of the answer goes into the places still free, from the last to the first. */
  function Placed(keys: seq<Option<Bytes>>, n: nat, ids: seq<Identity>): seq<Option<Bytes>>
    requires n <= |keys| && |ids| == n
    decreases n
  {
    if n == 0 then keys else Placed(keys[n - 1 := Some(ids[0].blob)], n - 1, ids[1..])
  }

  lemma IdentityRead(s: Reader, id: Identity, rest: Bytes)
    requires Between(s) && 0 < |id.blob| < 0x8000_0000 && |id.comment| < 0x8000_0000
    ensures var t := s.(keys := Some(s.keys.value[s.nkeys - 1 := Some(id.blob)]), nkeys := s.nkeys - 1);
            Read(s, PutIdentity(id) + rest)
            == if s.nkeys == 1 then t.(comment := LengthNext, done := true) else Read(t, rest)
  {
    hide Read, PutU32, PutIdentity;
    var c := PutU32(|id.comment|) + (id.comment + rest);
    RegroupIdentity(id, rest);
    KeyLenRead(s, |id.blob|, id.blob + c);
    var k := s.(keylen := |id.blob|, key := Some(Alloc(|id.blob|, 0)));
    assert k.key.value[..0] + id.blob == id.blob;
    KeyRead(k, 0, id.blob, c);
    var d := KeyDone(k, id.blob);
    if s.nkeys == 1 {
      DoneStays(d, c);
    } else {
      CommentLenRead(d, |id.comment|, id.comment + rest);
      if id.comment != [] {
        CommentRead(d.(comment := Skipping(|id.comment|)), 0, id.comment, rest);
      } else {
        assert [] + rest == rest;
      }
    }
  }

  lemma RegroupIdentity(id: Identity, rest: Bytes)
    requires |id.blob| < 0x8000_0000 && |id.comment| < 0x8000_0000
    ensures PutIdentity(id) + rest
            == PutU32(|id.blob|) + (id.blob + (PutU32(|id.comment|) + (id.comment + rest)))
  {
    hide PutU32;
  }

  lemma {:induction false} IdentitiesRead(s: Reader, ids: seq<Identity>, rest: Bytes)
    requires Between(s) && |ids| == s.nkeys && Listable(ids) && forall id <- ids :: id.blob != []
    ensures var t := Read(s, PutIdentities(ids) + rest);
            t.done && !t.failed == !s.failed && t.keys == Some(Placed(s.keys.value, s.nkeys, ids))
    decreases |ids|
  {
    hide PutIdentity, Read;
    var more := PutIdentities(ids[1..]);
    assert PutIdentities(ids) + rest == PutIdentity(ids[0]) + (more + rest);
    IdentityRead(s, ids[0], more + rest);
    if s.nkeys > 1 {
      IdentitiesRead(s.(keys := Some(s.keys.value[s.nkeys - 1 := Some(ids[0].blob)]), nkeys := s.nkeys - 1),
                     ids[1..], rest);
    }
  }

  lemma {:induction false} PlacedInReverse(keys: seq<Option<Bytes>>, n: nat, ids: seq<Identity>)
    requires n <= |keys| && |ids| == n
    ensures |Placed(keys, n, ids)| == |keys|
    ensures forall i | 0 <= i < n :: Placed(keys, n, ids)[n - 1 - i] == Some(ids[i].blob)
    ensures forall j | n <= j < |keys| :: Placed(keys, n, ids)[j] == keys[j]
    decreases n
  {
    if n > 0 {
      var next := keys[n - 1 := Some(ids[0].blob)];
      PlacedInReverse(next, n - 1, ids[1..]);
      forall i | 0 <= i < n ensures Placed(keys, n, ids)[n - 1 - i] == Some(ids[i].blob) {
        if i > 0 {
          assert Placed(next, n - 1, ids[1..])[n - 2 - (i - 1)] == Some(ids[1..][i - 1].blob);
        }
      }
    }
  }

  /** The bytes of the answer: a length, which is not looked at, and the list. */
  function Answer(header: Bytes, ids: seq<Identity>): Bytes
    requires Listable(ids)
  {
    header + [IDENTITIES_ANSWER] + PutU32(|ids|) + PutIdentities(ids)
  }

  lemma CountRead(s: Reader, n: int31, rest: Bytes)
    requires s.kind == Some(IDENTITIES_ANSWER) && s.keys.None? && s.nkeys == 0 && s.count == 0 && !s.done
    ensures Read(s, PutU32(n) + rest) == Read(s.(nkeys := n, keys := Some(Alloc(n, None)), done := n == 0), rest)
  {
    hide PutU32, Shl8, Alloc, Read, SignByte, KeyLenByte, KeyByte, CommentLenByte, CommentByte;
    var b := PutU32(n);
    ShiftedIn(n);
    FourSteps(s, b, rest);
    var s1 := s.(nkeys := b[0] as int, count := 1);
    var s2 := s1.(nkeys := Shl8(s1.nkeys) + b[1] as int, count := 2);
    var s3 := s2.(nkeys := Shl8(s2.nkeys) + b[2] as int, count := 3);
    assert Step(s, b[0]) == s1;
    assert Step(s1, b[1]) == s2 && Step(s2, b[2]) == s3;
    assert Step(s3, b[3]) == s.(nkeys := n, keys := Some(Alloc(n, None)), done := n == 0);
  }

  lemma HeaderRead(header: Bytes, kind: byte, rest: Bytes)
    requires |header| == 4
    ensures Read(Fresh(), header + [kind] + rest) == Read(Fresh().(kind := Some(kind)), rest)
  {
    hide Read;
    assert header + [kind] + rest == header + ([kind] + rest);
    FourSteps(Fresh(), header, [kind] + rest);
    OneStep(Fresh().(count := 4), [kind] + rest);
    assert ([kind] + rest)[1..] == rest;
  }

  /** A list of identities is complete with the last byte of the last key and comes out back to
      front. */
  lemma ListIsReversed(header: Bytes, ids: seq<Identity>, rest: Bytes)
    requires |header| == 4 && Listable(ids) && forall id <- ids :: id.blob != []
    ensures var t := Read(Fresh(), Answer(header, ids) + rest);
            && t.done && !t.failed && t.keys.Some? && |t.keys.value| == |ids|
            && forall i | 0 <= i < |ids| :: t.keys.value[|ids| - 1 - i] == Some(ids[i].blob)
  {
    hide Read, PutIdentities, PutU32, Placed;
    var list := PutIdentities(ids) + rest;
    assert Answer(header, ids) + rest == header + [IDENTITIES_ANSWER] + (PutU32(|ids|) + list);
    HeaderRead(header, IDENTITIES_ANSWER, PutU32(|ids|) + list);
    var s := Fresh().(kind := Some(IDENTITIES_ANSWER));
    CountRead(s, |ids|, list);
    var u := s.(nkeys := |ids|, keys := Some(Alloc(|ids|, None)), done := |ids| == 0);
    if ids == [] {
      DoneStays(u, list);
    } else {
      IdentitiesRead(u, ids, rest);
      PlacedInReverse(u.keys.value, |ids|, ids);
    }
  }

  /** With an empty key next in the list, nothing that follows completes it. */
  lemma {:induction false} EmptyKeyHangs(s: Reader, data: Bytes)
    requires s.kind == Some(IDENTITIES_ANSWER) && s.keys.Some? && s.key == Some([]) && s.comment == NotYet
    requires s.keylen == 0 && !s.done
    ensures !Read(s, data).done && Read(s, data).keys == s.keys
    decreases |data|
  {
    if data != [] {
      EmptyKeyHangs(s.(count := s.count + 1), data[1..]);
    }
  }

  lemma EmptyKeyNext(s: Reader, rest: Bytes)
    requires Between(s)
    ensures !Read(s, PutU32(0) + rest).done && Read(s, PutU32(0) + rest).keys == s.keys
  {
    hide Read;
    KeyLenRead(s, 0, rest);
    EmptyKeyHangs(s.(keylen := 0, key := Some([])), rest);
  }

  lemma {:induction false} EmptyKeyInside(s: Reader, ids: seq<Identity>, rest: Bytes)
    requires Between(s) && |ids| == s.nkeys && Listable(ids) && exists id <- ids :: id.blob == []
    ensures !Read(s, PutIdentities(ids) + rest).done
    decreases |ids|
  {
    hide PutU32, Read;
    var id, more := ids[0], PutIdentities(ids[1..]);
    assert PutIdentities(ids) + rest == PutIdentity(id) + (more + rest);
    if id.blob == [] {
      RegroupIdentity(id, more + rest);
      var after := PutU32(|id.comment|) + (id.comment + (more + rest));
      assert [] + after == after;
      EmptyKeyNext(s, after);
    } else {
      hide PutIdentity;
      assert exists x <- ids[1..] :: x.blob == [];
      IdentityRead(s, id, more + rest);
      EmptyKeyInside(s.(keys := Some(s.keys.value[s.nkeys - 1 := Some(id.blob)]), nkeys := s.nkeys - 1),
                     ids[1..], rest);
    }
  }

  /** A list of identities is ever complete exactly if no key in it is empty. */
  lemma CompleteUnlessEmptyKey(header: Bytes, ids: seq<Identity>, rest: Bytes)
    requires |header| == 4 && Listable(ids)
    ensures Read(Fresh(), Answer(header, ids) + rest).done <==> forall id <- ids :: id.blob != []
  {
    hide Read, PutIdentities, PutU32;
    if forall id <- ids :: id.blob != [] {
      ListIsReversed(header, ids, rest);
    } else {
      var list := PutIdentities(ids) + rest;
      assert Answer(header, ids) + rest == header + [IDENTITIES_ANSWER] + (PutU32(|ids|) + list);
      HeaderRead(header, IDENTITIES_ANSWER, PutU32(|ids|) + list);
      var s := Fresh().(kind := Some(IDENTITIES_ANSWER));
      CountRead(s, |ids|, list);
      EmptyKeyInside(s.(nkeys := |ids|, keys := Some(Alloc(|ids|, None))), ids, rest);
    }
  }

  // ----- A signature -----

  lemma SigLenRead(s: Reader, n: int31, rest: Bytes)
    requires s.kind == Some(SIGN_RESPONSE) && s.sig.None? && s.siglen == 0 && s.count == 0 && !s.done
    ensures Read(s, PutU32(n) + rest) == Read(s.(siglen := n, sig := Some(Alloc(n, 0))), rest)
  {
    hide PutU32, Shl8, Alloc, Read, CountByte, KeyLenByte, KeyByte, CommentLenByte, CommentByte;
    var b := PutU32(n);
    ShiftedIn(n);
    FourSteps(s, b, rest);
    var s1 := s.(siglen := b[0] as int, count := 1);
    var s2 := s1.(siglen := Shl8(s1.siglen) + b[1] as int, count := 2);
    var s3 := s2.(siglen := Shl8(s2.siglen) + b[2] as int, count := 3);
    assert Step(s, b[0]) == s1;
    assert Step(s1, b[1]) == s2 && Step(s2, b[2]) == s3;
    assert Step(s3, b[3]) == s.(siglen := n, sig := Some(Alloc(n, 0)));
  }

  lemma {:induction false} SigBytesRead(s: Reader, i: nat, data: Bytes, rest: Bytes)
    requires s.kind == Some(SIGN_RESPONSE) && s.sig.Some? && s.siglen == |s.sig.value| == i + |data|
    requires s.count == i && !s.done && data != []
    ensures var t := Read(s, data + rest); t.done && !t.failed == !s.failed && t.sig == Some(s.sig.value[..i] + data)
    decreases |data|
  {
    var d := data + rest;
    OneStep(s, d);
    assert d[1..] == data[1..] + rest;
    var sig := s.sig.value[i := data[0]];
    assert sig[..i + 1] == s.sig.value[..i] + [data[0]];
    var t := s.(sig := Some(sig), count := i + 1, done := i + 1 == s.siglen);
    assert Step(s, d[0]) == t;
    if |data| == 1 {
      DoneStays(t, d[1..]);
      assert sig == s.sig.value[..i] + data;
    } else {
      SigBytesRead(t, i + 1, data[1..], rest);
      assert sig[..i + 1] + data[1..] == s.sig.value[..i] + data;
    }
  }

  /** A signature comes through, if it is not empty. */
  lemma SignatureComesThrough(header: Bytes, sig: Bytes, rest: Bytes)
    requires |header| == 4 && 0 < |sig| < 0x8000_0000
    ensures var t := Read(Fresh(), header + [SIGN_RESPONSE] + (PutU32(|sig|) + (sig + rest)));
            t.done && !t.failed && t.sig == Some(sig)
  {
    hide Read, PutU32;
    HeaderRead(header, SIGN_RESPONSE, PutU32(|sig|) + (sig + rest));
    var s := Fresh().(kind := Some(SIGN_RESPONSE));
    SigLenRead(s, |sig|, sig + rest);
    var u := s.(siglen := |sig|, sig := Some(Alloc(|sig|, 0)));
    assert u.sig.value[..0] + sig == sig;
    SigBytesRead(u, 0, sig, rest);
  }

  /** So much of a signature that it is not complete yet. */
  lemma {:induction false} SigPartRead(s: Reader, i: nat, data: Bytes)
    requires s.kind == Some(SIGN_RESPONSE) && s.sig.Some? && s.siglen == |s.sig.value| > i + |data|
    requires s.count == i && !s.done
    ensures var t := Read(s, data);
            && !t.done && !t.failed == !s.failed && t.sig.Some? && |t.sig.value| == |s.sig.value|
            && t.sig.value[..i + |data|] == s.sig.value[..i] + data
    decreases |data|
  {
    if data != [] {
      var sig := s.sig.value[i := data[0]];
      var t := s.(sig := Some(sig), count := i + 1);
      assert Step(s, data[0]) == t;
      SigPartRead(t, i + 1, data[1..]);
      assert sig[..i + 1] + data[1..] == s.sig.value[..i] + data;
    }
  }

  // ----- What the caller hears -----

  datatype Outcome = Refused | Disconnected | Signature(sig: Bytes) | Keys(keys: seq<Option<Bytes>>)

  /** `onclose`, after the reply or when the agent hangs up. */
  function OnClose(s: Reader, signing: bool): Outcome {
    if s.failed then Refused
    else if signing then (if s.sig.Some? then Signature(s.sig.value) else Disconnected)
    else if s.keys.Some? then Keys(s.keys.value)
    else Disconnected
  }

  /** A refusal is taken notice of with the byte after it; an agent that sends none is reported as
      gone. */
  lemma RefusalNeedsAnotherByte(header: Bytes, rest: Bytes, signing: bool)
    requires |header| == 4
    ensures OnClose(Read(Fresh(), header + [FAILURE] + rest), signing) == if rest == [] then Disconnected else Refused
  {
    hide Read;
    HeaderRead(header, FAILURE, rest);
    var s := Fresh().(kind := Some(FAILURE));
    if rest == [] {
      NothingRead(s);
    } else {
      OneStep(s, rest);
      DoneStays(Step(s, rest[0]), rest[1..]);
    }
  }

  lemma NothingRead(s: Reader)
    ensures Read(s, []) == s
  {
  }

  /** An agent that hangs up within a signature: the caller is given a signature all the same, of
      which only as much as has arrived is the agent's. */
  lemma CutSignatureIsPassedOn(header: Bytes, sig: Bytes, k: nat)
    requires |header| == 4 && 0 < |sig| < 0x8000_0000 && k <= |sig|
    ensures var t := Read(Fresh(), header + [SIGN_RESPONSE] + (PutU32(|sig|) + sig[..k]));
            && (t.done <==> k == |sig|) && OnClose(t, true).Signature?
            && var given := OnClose(t, true).sig; |given| == |sig| && given[..k] == sig[..k]
  {
    hide Read, PutU32;
    var part := sig[..k];
    HeaderRead(header, SIGN_RESPONSE, PutU32(|sig|) + part);
    var s := Fresh().(kind := Some(SIGN_RESPONSE));
    SigLenRead(s, |sig|, part);
    var u := s.(siglen := |sig|, sig := Some(Alloc(|sig|, 0)));
    assert u.sig.value[..0] + part == part;
    if k == |sig| {
      assert part == sig && part + [] == part;
      SigBytesRead(u, 0, part, []);
    } else {
      SigPartRead(u, 0, part);
    }
  }

  // ----- The closure -----

  class AgentSocket {
    var kind: Option<byte>
    var count: nat
    var siglen: int
    var sig: Option<Bytes>
    var nkeys: int
    var keys: Option<seq<Option<Bytes>>>
    var keylen: int
    var key: Option<Bytes>
    var comment: Comment
    var comlen: int
    var failed: bool
    var done: bool

    ghost function View(): Reader
      reads this
    {
      Reader(kind, count, siglen, sig, nkeys, keys, keylen, key, comment, comlen, failed, done)
    }

    constructor ()
      ensures View() == Fresh()
    {
      kind, count, siglen, sig := None, 0, 0, None;
      nkeys, keys, keylen, key := 0, None, 0, None;
      comment, comlen, failed, done := NotYet, 0, false, false;
    }

    method OnSign(b: byte)
      modifies this
      ensures View() == SignByte(old(View()), b)
    {
      if sig.None? {
        siglen := Shl8(siglen) + b as int;
        count := count + 1;
        if count == 4 {
          sig, count := Some(Alloc(siglen, 0)), 0;
        }
      } else {
        sig := Some(Stored(sig.value, count, b));
        count := count + 1;
        done := count == siglen;
      }
    }

    method OnCount(b: byte)
      modifies this
      ensures View() == CountByte(old(View()), b)
    {
      nkeys := Shl8(nkeys) + b as int;
      count := count + 1;
      if count == 4 {
        keys, count := Some(Alloc(nkeys, None)), 0;
        done := nkeys == 0;
      }
    }

    method OnKeyLength(b: byte)
      modifies this
      ensures View() == KeyLenByte(old(View()), b)
    {
      keylen := Shl8(keylen) + b as int;
      count := count + 1;
      if count == 4 {
        key, count := Some(Alloc(keylen, 0)), 0;
      }
    }

    method OnKey(b: byte)
      requires key.Some? && keys.Some?
      modifies this
      ensures View() == KeyByte(old(View()), b)
    {
      hide Stored;
      key := Some(Stored(key.value, count, b));
      count := count + 1;
      if count == keylen {
        TakeKey();
      }
    }

    method TakeKey()
      requires key.Some? && keys.Some?
      modifies this
      ensures View() == KeyTaken(old(View()), old(key).value)
    {
      if 1 <= nkeys <= |keys.value| {
        keys := Some(keys.value[nkeys - 1 := key]);
      }
      keylen, count, comment := 0, 0, LengthNext;
      nkeys := nkeys - 1;
      done := nkeys == 0;
      if done {
        key := None;
      }
    }

    method OnComment(b: byte)
      requires comment != NotYet
      modifies this
      ensures View() == if old(comment).LengthNext? then CommentLenByte(old(View()), b) else CommentByte(old(View()))
    {
      if comment.LengthNext? {
        comlen := Shl8(comlen) + b as int;
        count := count + 1;
        if count == 4 {
          count := 0;
          if comlen > 0 {
            comment := Skipping(comlen);
          } else {
            key, comment := None, NotYet;
          }
          comlen := 0;
        }
      } else {
        count := count + 1;
        if count == comment.len {
          comment, count, key := NotYet, 0, None;
        }
      }
    }

    /** What has arrived before and `chunk` are read as one. */
    method OnData(chunk: Bytes)
      modifies this
      ensures View() == Read(old(View()), chunk)
    {
      var i := 0;
      assert chunk[..0] == [] && Read(View(), []) == View();
      while i < |chunk| && !done
        invariant i <= |chunk|
        invariant View() == Read(old(View()), chunk[..i])
      {
        ghost var was := View();
        var b := chunk[i];
        if kind.None? {
          count := count + 1;
          if count == 5 {
            kind, count := Some(b), 0;
          }
        } else if kind == Some(SIGN_RESPONSE) {
          OnSign(b);
        } else if kind == Some(IDENTITIES_ANSWER) {
          if keys.None? {
            OnCount(b);
          } else if key.None? {
            OnKeyLength(b);
          } else if comment == NotYet {
            OnKey(b);
          } else {
            OnComment(b);
          }
        } else if kind == Some(FAILURE) {
          failed, done := true, true;
        }
        assert View() == Step(was, b);
        OneMore(old(View()), chunk, i);
        i := i + 1;
      }
      assert chunk == chunk[..i] + chunk[i..];
      ReadInTwo(old(View()), chunk[..i], chunk[i..]);
      if done {
        DoneStays(View(), chunk[i..]);
      }
    }
  }

  lemma OneMore(s: Reader, chunk: Bytes, i: nat)
    requires i < |chunk|
    ensures Read(s, chunk[..i + 1]) == Step(Read(s, chunk[..i]), chunk[i])
  {
    assert chunk[..i + 1] == chunk[..i] + [chunk[i]];
    ReadInTwo(s, chunk[..i], [chunk[i]]);
    OneStep(Read(s, chunk[..i]), [chunk[i]]);
    assert [chunk[i]][1..] == [];
    NothingRead(Step(Read(s, chunk[..i]), chunk[i]));
  }
}
