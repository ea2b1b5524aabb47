/** File attributes and NAME packets of SFTP: what the server writes and the client reads. */
module Attrs {
  import opened Common
  import opened FrameSpec

  // ----- 64-bit numbers -----

  const TWO_53: nat := 0x20_0000_0000_0000

  type safe = n: nat | n < TWO_53

  function PutU64(n: safe): (b: Bytes)
    ensures |b| == 8 && GetU64(b) == n
  {
    assert n == n / TWO_32 * TWO_32 + n % TWO_32;
    var high, low := PutU32(n / TWO_32), PutU32(n % TWO_32);
    assert (high + low)[..4] == high && (high + low)[4..8] == low;
    high + low
  }

  /** `readUInt64BE`: eight products added up. */
  function GetU64(b: Bytes): nat
    requires |b| >= 8
  {
    GetU32(b[..4]) * TWO_32 + GetU32(b[4..8])
  }

  /** `n` without its last `k` bytes. */
  function Shifted(n: nat, k: nat): nat
    decreases k
  {
    if k == 0 then n else Shifted(n / 256, k - 1)
  }

  /** Dividing by 256 again and again is dividing once. */
  lemma ShiftedByFour(n: nat)
    ensures Shifted(n, 1) == n / 0x100 && Shifted(n, 2) == n / 0x1_0000
    ensures Shifted(n, 3) == n / 0x100_0000 && Shifted(n, 4) == n / TWO_32
  {
    assert Shifted(n, 2) == Shifted(n / 0x100, 1) == n / 0x100 / 0x100;
    assert n / 0x100 / 0x100 == n / 0x1_0000;
    ShiftedTwice(n, 2, 1);
    assert n / 0x1_0000 / 0x100 == n / 0x100_0000;
    ShiftedTwice(n, 2, 2);
    assert Shifted(n / 0x1_0000, 2) == n / 0x1_0000 / 0x100 / 0x100;
    assert n / 0x1_0000 / 0x1_0000 == n / TWO_32;
  }

  lemma ShiftedByEight(n: nat)
    ensures Shifted(n, 5) == n / (0x100 * TWO_32) && Shifted(n, 6) == n / (0x1_0000 * TWO_32)
    ensures Shifted(n, 7) == n / (0x100_0000 * TWO_32)
  {
    ShiftedByFour(n);
    ShiftedByFour(n / TWO_32);
    ShiftedTwice(n, 4, 1);
    ShiftedTwice(n, 4, 2);
    ShiftedTwice(n, 4, 3);
    assert n / TWO_32 / 0x100 == n / (0x100 * TWO_32);
    assert n / TWO_32 / 0x1_0000 == n / (0x1_0000 * TWO_32);
    assert n / TWO_32 / 0x100_0000 == n / (0x100_0000 * TWO_32);
  }

  /** Byte `i` of a number of `width` bytes. */
  function ByteAt(n: nat, i: nat, width: nat): byte
    requires i < width
  {
    (Shifted(n, width - 1 - i) % 256) as byte
  }

  function Digits(n: nat, width: nat): (b: Bytes)
    ensures |b| == width
  {
    seq(width, i requires 0 <= i < width => ByteAt(n, i, width))
  }

  lemma DigitsOfU32(n: uint32)
    ensures PutU32(n) == Digits(n, 4)
  {
    var high, low := n / 0x1_0000, n % 0x1_0000;
    assert n == high * 0x1_0000 + low;
    assert high == high / 0x100 * 0x100 + high % 0x100 && low == low / 0x100 * 0x100 + low % 0x100;
    assert Shifted(n, 1) == n / 256 && Shifted(n, 2) == n / 256 / 256 == high;
    assert Shifted(n, 3) == Shifted(n / 256, 2) == n / 256 / 256 / 256;
  }

  /** The digits of a number are those of its upper part and then those of its lower. */
  lemma LowDigits(n: nat, k: nat)
    requires k < 4
    ensures Shifted(n, k) % 256 == Shifted(n % TWO_32, k) % 256
  {
    var high, low := n / TWO_32, n % TWO_32;
    assert n == high * TWO_32 + low;
    ShiftedByFour(n);
    ShiftedByFour(low);
    hide Shifted;
    if k == 3 {
      assert n / 0x100_0000 == high * 0x100 + low / 0x100_0000;
    } else if k == 2 {
      assert n / 0x1_0000 == high * 0x1_0000 + low / 0x1_0000;
    } else if k == 1 {
      assert n / 0x100 == high * 0x100_0000 + low / 0x100;
    }
  }

  lemma {:induction false} ShiftedTwice(n: nat, j: nat, k: nat)
    ensures Shifted(n, j + k) == Shifted(Shifted(n, j), k)
    decreases j
  {
    if j > 0 {
      ShiftedTwice(n / 256, j - 1, k);
    }
  }

  lemma DigitsOfU64(n: safe)
    ensures PutU64(n) == Digits(n, 8)
  {
    var high, low := n / TWO_32, n % TWO_32;
    DigitsOfU32(high);
    DigitsOfU32(low);
    forall i | 0 <= i < 8 ensures PutU64(n)[i] == ByteAt(n, i, 8) {
      hide Shifted, PutU32;
      if i < 4 {
        ShiftedTwice(n, 4, 3 - i);
        ShiftedByFour(n);
        assert PutU64(n)[i] == PutU32(high)[i] == ByteAt(high, i, 4);
      } else {
        LowDigits(n, 7 - i);
        assert PutU64(n)[i] == PutU32(low)[i - 4] == ByteAt(low, i - 4, 4);
      }
    }
  }

  lemma FloorOfQuotient(x: real)
    requires x >= 0.0
    ensures (x / 256.0).Floor == x.Floor / 256
  {
    var q := x.Floor / 256;
    assert x.Floor == q * 256 + x.Floor % 256;
    assert (q as real) <= x / 256.0 < (q + 1) as real;
  }

  /** The offset in a READ or WRITE: the last byte first, each left by dividing by 256, which leaves
      fractions that masking drops. */
  method EncodeOffset(out: array<byte>, p: nat, position: safe)
    requires p + 8 <= out.Length
    modifies out
    ensures out[p..p + 8] == PutU64(position)
    ensures out[..p] == old(out[..p]) && out[p + 8..] == old(out[p + 8..])
  {
    var pos := position as real;
    var i := 7;
    hide PutU64, GetU64;
    while i >= 0
      invariant -1 <= i <= 7
      invariant pos >= 0.0 && (i >= 0 ==> pos.Floor == Shifted(position, 7 - i))
      invariant forall j | i < j < 8 :: out[p + j] == ByteAt(position, j, 8)
      invariant out[..p] == old(out[..p]) && out[p + 8..] == old(out[p + 8..])
    {
      FloorOfQuotient(pos);
      ShiftedTwice(position, 7 - i, 1);
      out[p + i] := (pos.Floor % 256) as byte;
      pos := pos / 256.0;
      i := i - 1;
    }
    DigitsOfU64(position);
    assert out[p..p + 8] == Digits(position, 8);
  }

  // ----- Attributes -----

  const SIZE: nat := 1
  const UIDGID: nat := 2
  const PERMISSIONS: nat := 4
  const ACMODTIME: nat := 8

  datatype Attributes = Attributes(
    size: Option<safe>,
    uid: Option<uint32>,
    gid: Option<uint32>,
    mode: Option<uint32>,
    atime: Option<uint32>,
    mtime: Option<uint32>)

  const NOTHING := Attributes(None, None, None, None, None, None)

  function Flags(a: Attributes): (f: uint32)
    ensures f < 16
  {
    (if a.size.Some? then SIZE else 0)
    + (if a.uid.Some? && a.gid.Some? then UIDGID else 0)
    + (if a.mode.Some? then PERMISSIONS else 0)
    + (if a.atime.Some? && a.mtime.Some? then ACMODTIME else 0)
  }

  function Pair(a: Option<uint32>, b: Option<uint32>): (r: Bytes)
    ensures |r| == if a.Some? && b.Some? then 8 else 0
  {
    if a.Some? && b.Some? then PutU32(a.value) + PutU32(b.value) else []
  }

  function SizeBytes(a: Attributes): (r: Bytes)
    ensures |r| == if a.size.Some? then 8 else 0
  {
    if a.size.Some? then PutU64(a.size.value) else []
  }

  function ModeBytes(a: Attributes): (r: Bytes)
    ensures |r| == if a.mode.Some? then 4 else 0
  {
    if a.mode.Some? then PutU32(a.mode.value) else []
  }

  /** What `attrsToBytes` leaves in `ATTRS_BUF`. */
  function AttrBytes(a: Attributes): (r: Bytes)
    ensures |r| <= 28 && (|r| == 0 <==> Flags(a) == 0)
  {
    SizeBytes(a) + Pair(a.uid, a.gid) + ModeBytes(a) + Pair(a.atime, a.mtime)
  }

  /** Owner and group, and the two times, count only together. */
  function Normal(a: Attributes): Attributes {
    var owner, times := a.uid.Some? && a.gid.Some?, a.atime.Some? && a.mtime.Some?;
    a.(uid := if owner then a.uid else None, gid := if owner then a.gid else None,
       atime := if times then a.atime else None, mtime := if times then a.mtime else None)
  }

  /** The bit of weight `bit` in `flags`. */
  predicate Has(flags: nat, bit: nat)
    requires bit > 0
  {
    flags / bit % 2 == 1
  }

  /** A parser reads something off the front, or not. */
  type Read<T> = Option<(T, Bytes)>

  function ReadU32(b: Bytes): Read<nat> {
    if |b| < 4 then None else Some((GetU32(b), b[4..]))
  }

  function ReadPair(b: Bytes): Read<(nat, nat)> {
    if |b| < 8 then None else Some(((GetU32(b), GetU32(b[4..])), b[8..]))
  }

  function ReadU64(b: Bytes): Read<nat> {
    if |b| < 8 then None else Some((GetU64(b), b[8..]))
  }

  /** What the client makes of attributes; sizes beyond 2^53 are read, too. */
  datatype Stats = Stats(
    size: Option<nat>,
    owner: Option<(nat, nat)>,
    mode: Option<nat>,
    times: Option<(nat, nat)>)

  /** One part that is there if its flag is. */
  function Optional<T>(there: bool, read: Bytes -> Read<T>, b: Bytes): Read<Option<T>> {
    if !there then Some((None, b))
    else
      var r := read(b);
      if r.None? then None else Some((Some(r.value.0), r.value.1))
  }

  /** `readAttrs`, without extended attributes. */
  function ReadAttrs(b: Bytes): Read<Stats> {
    var flags := ReadU32(b);
    if flags.None? then None
    else
      var f := flags.value.0;
      var size := Optional(Has(f, SIZE), ReadU64, flags.value.1);
      if size.None? then None
      else
        var owner := Optional(Has(f, UIDGID), ReadPair, size.value.1);
        if owner.None? then None
        else
          var mode := Optional(Has(f, PERMISSIONS), ReadU32, owner.value.1);
          if mode.None? then None
          else
            var times := Optional(Has(f, ACMODTIME), ReadPair, mode.value.1);
            if times.None? then None
            else Some((Stats(size.value.0, owner.value.0, mode.value.0, times.value.0), times.value.1))
  }

  function Both(a: Option<uint32>, b: Option<uint32>): Option<(nat, nat)> {
    if a.Some? && b.Some? then Some((a.value, b.value)) else None
  }

  function AsStats(a: Attributes): Stats {
    Stats(a.size, Both(a.uid, a.gid), a.mode, Both(a.atime, a.mtime))
  }

  lemma FlagsTell(a: Attributes)
    ensures var f := Flags(a);
            && Has(f, SIZE) == a.size.Some? && Has(f, UIDGID) == (a.uid.Some? && a.gid.Some?)
            && Has(f, PERMISSIONS) == a.mode.Some? && Has(f, ACMODTIME) == (a.atime.Some? && a.mtime.Some?)
  {
  }

  lemma GetAtFront(n: uint32, rest: Bytes)
    ensures |PutU32(n) + rest| >= 4 && GetU32(PutU32(n) + rest) == n && (PutU32(n) + rest)[4..] == rest
  {
    var b := PutU32(n) + rest;
    assert b[..4] == PutU32(n) && GetU32(b) == GetU32(b[..4]);
  }

  lemma SizeRead(a: Attributes, rest: Bytes)
    ensures Optional(a.size.Some?, ReadU64, SizeBytes(a) + rest) == Some((a.size, rest))
  {
    if a.size.Some? {
      var b := PutU64(a.size.value) + rest;
      assert b[..8] == PutU64(a.size.value) && b[8..] == rest;
      assert b[..4] == b[..8][..4] && b[4..8] == b[..8][4..8];
      hide PutU64, GetU32;
    } else {
      assert [] + rest == rest;
    }
  }

  lemma PairRead(x: Option<uint32>, y: Option<uint32>, rest: Bytes)
    ensures Optional(x.Some? && y.Some?, ReadPair, Pair(x, y) + rest) == Some((Both(x, y), rest))
  {
    if x.Some? && y.Some? {
      var b := Pair(x, y) + rest;
      assert b == PutU32(x.value) + (PutU32(y.value) + rest);
      GetAtFront(x.value, PutU32(y.value) + rest);
      GetAtFront(y.value, rest);
      hide PutU32, GetU32;
      assert b[8..] == b[4..][4..];
    } else {
      assert [] + rest == rest;
    }
  }

  lemma ModeRead(a: Attributes, rest: Bytes)
    ensures Optional(a.mode.Some?, ReadU32, ModeBytes(a) + rest) == Some((a.mode, rest))
  {
    if a.mode.Some? {
      GetAtFront(a.mode.value, rest);
    } else {
      assert [] + rest == rest;
    }
  }

  lemma Regroup(f: Bytes, s: Bytes, o: Bytes, m: Bytes, t: Bytes, rest: Bytes)
    ensures f + (s + o + m + t) + rest == f + (s + (o + (m + (t + rest))))
  {
  }

  /** Attributes come through, lone owners and times left out. */
  lemma AttrsRoundTrip(a: Attributes, rest: Bytes)
    ensures ReadAttrs(PutU32(Flags(a)) + AttrBytes(a) + rest) == Some((AsStats(a), rest))
  {
    var times := Pair(a.atime, a.mtime) + rest;
    var mode := ModeBytes(a) + times;
    var owner := Pair(a.uid, a.gid) + mode;
    var size := SizeBytes(a) + owner;
    Regroup(PutU32(Flags(a)), SizeBytes(a), Pair(a.uid, a.gid), ModeBytes(a), Pair(a.atime, a.mtime), rest);
    GetAtFront(Flags(a), size);
    FlagsTell(a);
    SizeRead(a, owner);
    PairRead(a.uid, a.gid, mode);
    ModeRead(a, times);
    PairRead(a.atime, a.mtime, rest);
    hide SizeBytes, Pair, ModeBytes, Flags, Has, PutU32, GetU32, ReadU64, ReadPair, Optional;
  }

  /** Where each part begins, behind the flags, by the bits for those before it. */
  function OwnerAt(f: nat): nat { 4 + if f % 2 == 1 then 8 else 0 }
  function ModeAt(f: nat): nat { OwnerAt(f) + if f / 2 % 2 == 1 then 8 else 0 }
  function TimesAt(f: nat): nat { ModeAt(f) + if f / 4 % 2 == 1 then 4 else 0 }
  function EndAt(f: nat): nat { TimesAt(f) + if f / 8 % 2 == 1 then 8 else 0 }

  lemma BitsAre(f: nat)
    ensures Has(f, SIZE) == (f % 2 == 1) && Has(f, UIDGID) == (f / 2 % 2 == 1)
    ensures Has(f, PERMISSIONS) == (f / 4 % 2 == 1) && Has(f, ACMODTIME) == (f / 8 % 2 == 1)
  {
    assert f / 1 == f;
  }

  lemma Behind(b: Bytes, i: nat, j: nat)
    requires i <= j <= |b|
    ensures b[i..][j - i..] == b[j..]
  {
  }

  lemma PairAt(b: Bytes, i: nat, there: bool)
    requires i <= |b|
    ensures Optional(there, ReadPair, b[i..]) ==
            if !there then Some((None, b[i..]))
            else if |b| < i + 8 then None
            else Some((Some((GetU32(b[i..]), GetU32(b[i + 4..]))), b[i + 8..]))
  {
    if |b| >= i + 8 {
      Behind(b, i, i + 4);
      Behind(b, i, i + 8);
    }
    hide GetU32;
  }

  lemma NumberAt(b: Bytes, i: nat, there: bool)
    requires i <= |b|
    ensures Optional(there, ReadU32, b[i..]) ==
            if !there then Some((None, b[i..]))
            else if |b| < i + 4 then None
            else Some((Some(GetU32(b[i..])), b[i + 4..]))
    ensures Optional(there, ReadU64, b[i..]) ==
            if !there then Some((None, b[i..]))
            else if |b| < i + 8 then None
            else Some((Some(GetU64(b[i..])), b[i + 8..]))
  {
    if |b| >= i + 4 {
      Behind(b, i, i + 4);
    }
    if |b| >= i + 8 {
      Behind(b, i, i + 8);
    }
    hide GetU32, GetU64;
  }

  /** Any bytes at all: attributes are read exactly if all the parts that the flags promise are there, and
      each is what stands at its place. */
  lemma ReadsWhatIsThere(b: Bytes)
    requires |b| >= 4
    ensures var f := GetU32(b);
            ReadAttrs(b) ==
            if |b| < EndAt(f) then None
            else Some((Stats(if f % 2 == 1 then Some(GetU64(b[4..])) else None,
                             if f / 2 % 2 == 1
                             then Some((GetU32(b[OwnerAt(f)..]), GetU32(b[OwnerAt(f) + 4..]))) else None,
                             if f / 4 % 2 == 1 then Some(GetU32(b[ModeAt(f)..])) else None,
                             if f / 8 % 2 == 1
                             then Some((GetU32(b[TimesAt(f)..]), GetU32(b[TimesAt(f) + 4..]))) else None),
                       b[EndAt(f)..]))
  {
    var f := GetU32(b);
    BitsAre(f);
    NumberAt(b, 4, Has(f, SIZE));
    if |b| >= OwnerAt(f) {
      PairAt(b, OwnerAt(f), Has(f, UIDGID));
    }
    if |b| >= ModeAt(f) {
      NumberAt(b, ModeAt(f), Has(f, PERMISSIONS));
    }
    if |b| >= TimesAt(f) {
      PairAt(b, TimesAt(f), Has(f, ACMODTIME));
    }
    hide Has, GetU32, GetU64, Optional, ReadU64, ReadPair;
  }

  /** What is left out is exactly an owner without a group, a group without an owner, and the same
      for the two times. */
  lemma NothingElseLost(a: Attributes, b: Attributes)
    ensures AsStats(Normal(a)) == AsStats(a)
    ensures Normal(a) == a <==> a.uid.Some? == a.gid.Some? && a.atime.Some? == a.mtime.Some?
    ensures AsStats(a) == AsStats(b) <==> Normal(a) == Normal(b)
  {
  }

  // ----- NAME -----

  const NAME: byte := 104

  /** An entry as the server application gives it; without attributes it is sent as one with none. */
  datatype Name = Name(filename: Bytes, longname: Bytes, attrs: Option<Attributes>)

  /** An entry as the client gets it; a string that is not all there is left undefined. */
  datatype Entry = Entry(filename: Option<Bytes>, longname: Option<Bytes>, attrs: Stats)

  predicate Sendable(names: seq<Name>) {
    |names| < TWO_32 && forall n <- names :: |n.filename| < TWO_32 && |n.longname| < TWO_32
  }

  function PutString(s: Bytes): Bytes
    requires |s| < TWO_32
  {
    PutU32(|s|) + s
  }

  function PutAttrs(a: Option<Attributes>): Bytes {
    if a.None? then PutU32(0) else PutU32(Flags(a.value)) + AttrBytes(a.value)
  }

  function PutName(n: Name): Bytes
    requires |n.filename| < TWO_32 && |n.longname| < TWO_32
  {
    PutString(n.filename) + PutString(n.longname) + PutAttrs(n.attrs)
  }

  function PutNames(names: seq<Name>): Bytes
    requires forall n <- names :: |n.filename| < TWO_32 && |n.longname| < TWO_32
  {
    if names == [] then [] else PutName(names[0]) + PutNames(names[1..])
  }

  /** The payload of a NAME: everything after the packet length. */
  function NamePayload(reqid: uint32, names: seq<Name>): Bytes
    requires Sendable(names)
  {
    [NAME] + PutU32(reqid) + PutU32(|names|) + PutNames(names)
  }

  /** `readString`: a length that promises too much is used up all the same. */
  function ReadString(b: Bytes): (Option<Bytes>, Bytes) {
    if |b| < 4 then (None, b)
    else if |b| - 4 < GetU32(b) then (None, b[4..])
    else (Some(b[4..4 + GetU32(b)]), b[4 + GetU32(b)..])
  }

  function ReadNames(b: Bytes, count: nat): Option<seq<Entry>>
    decreases count
  {
    if count == 0 then Some([])
    else
      var f := ReadString(b);
      var l := ReadString(f.1);
      var a := ReadAttrs(l.1);
      if a.None? then None
      else
        var rest := ReadNames(a.value.1, count - 1);
        if rest.None? then None else Some([Entry(f.0, l.0, a.value.0)] + rest.value)
  }

  /** The handler of NAME: the request id and the entries. */
  function ParseName(payload: Bytes): Option<(nat, seq<Entry>)> {
    if |payload| < 9 then None
    else
      var names := ReadNames(payload[9..], GetU32(payload[5..]));
      if names.None? then None else Some((GetU32(payload[1..]), names.value))
  }

  function AsEntry(n: Name): Entry {
    Entry(Some(n.filename), Some(n.longname), AsStats(n.attrs.GetOr(NOTHING)))
  }

  function AsEntries(names: seq<Name>): seq<Entry> {
    seq(|names|, i requires 0 <= i < |names| => AsEntry(names[i]))
  }

  lemma StringRead(s: Bytes, rest: Bytes)
    requires |s| < TWO_32
    ensures ReadString(PutString(s) + rest) == (Some(s), rest)
  {
    var b := PutString(s) + rest;
    assert b == PutU32(|s|) + (s + rest);
    GetAtFront(|s|, s + rest);
    assert b[4..4 + |s|] == s && b[4 + |s|..] == rest;
  }

  lemma PutAttrsIs(a: Option<Attributes>)
    ensures PutAttrs(a) == PutU32(Flags(a.GetOr(NOTHING))) + AttrBytes(a.GetOr(NOTHING))
  {
    if a.None? {
      assert AttrBytes(NOTHING) == [];
      assert PutU32(0) + [] == PutU32(0);
    }
  }

  lemma NameRead(n: Name, rest: Bytes)
    requires |n.filename| < TWO_32 && |n.longname| < TWO_32
    ensures var b := PutName(n) + rest;
            var f := ReadString(b);
            var l := ReadString(f.1);
            && f.0 == Some(n.filename) && l.0 == Some(n.longname)
            && ReadAttrs(l.1) == Some((AsStats(n.attrs.GetOr(NOTHING)), rest))
  {
    var f, l, a := PutString(n.filename), PutString(n.longname), PutAttrs(n.attrs);
    assert PutName(n) + rest == f + (l + (a + rest));
    StringRead(n.filename, l + (a + rest));
    StringRead(n.longname, a + rest);
    PutAttrsIs(n.attrs);
    AttrsRoundTrip(n.attrs.GetOr(NOTHING), rest);
    hide PutString, PutAttrs, ReadString, ReadAttrs, AsStats, Flags, AttrBytes, PutU32;
  }

  lemma FirstEntry(names: seq<Name>)
    requires names != []
    ensures AsEntries(names) == [AsEntry(names[0])] + AsEntries(names[1..])
  {
  }

  lemma {:induction false} NamesRead(names: seq<Name>)
    requires forall n <- names :: |n.filename| < TWO_32 && |n.longname| < TWO_32
    ensures ReadNames(PutNames(names), |names|) == Some(AsEntries(names))
    decreases |names|
  {
    if names != [] {
      hide PutName, ReadString, ReadAttrs, AsStats, AsEntries;
      NameRead(names[0], PutNames(names[1..]));
      NamesRead(names[1..]);
      FirstEntry(names);
    } else {
      assert AsEntries(names) == [];
    }
  }

  /** Any list of names comes through, each with its own attributes. */
  lemma NameRoundTrip(reqid: uint32, names: seq<Name>)
    requires Sendable(names)
    ensures ParseName(NamePayload(reqid, names)) == Some((reqid, AsEntries(names)))
  {
    hide PutU32, GetU32, PutNames, ReadNames, AsEntries;
    var count := PutU32(|names|) + PutNames(names);
    var payload := NamePayload(reqid, names);
    GetAtFront(reqid, count);
    GetAtFront(|names|, PutNames(names));
    NamesRead(names);
    assert payload[1..] == PutU32(reqid) + count;
    assert payload[5..] == payload[1..][4..];
    assert payload[9..] == payload[5..][4..];
  }

  // ----- The server's code: one buffer for the attributes of all entries -----

  class SFTP {
    /** The static `ATTRS_BUF`. */
    const attrsBuf: array<byte>

    constructor ()
      ensures attrsBuf.Length == 28 && fresh(attrsBuf)
    {
      attrsBuf := new byte[28];
    }

    /** Four bytes at `nb`. */
    method Put4(nb: nat, n: uint32) returns (next: nat)
      requires nb + 4 <= attrsBuf.Length
      modifies attrsBuf
      ensures next == nb + 4 && attrsBuf[..next] == old(attrsBuf[..nb]) + PutU32(n)
    {
      DigitsOfU32(n);
      ShiftedByFour(n);
      hide PutU32, Shifted;
      attrsBuf[nb] := (n / 0x100_0000 % 256) as byte;
      attrsBuf[nb + 1] := (n / 0x1_0000 % 256) as byte;
      attrsBuf[nb + 2] := (n / 0x100 % 256) as byte;
      attrsBuf[nb + 3] := (n % 256) as byte;
      next := nb + 4;
      assert Shifted(n, 0) == n by {
        NotShifted(n);
      }
      assert attrsBuf[nb..next] == Digits(n, 4);
      assert attrsBuf[..next] == attrsBuf[..nb] + attrsBuf[nb..next];
    }

    method PutPair(nb: nat, x: uint32, y: uint32) returns (next: nat)
      requires nb + 8 <= attrsBuf.Length
      modifies attrsBuf
      ensures next == nb + 8 && attrsBuf[..next] == old(attrsBuf[..nb]) + (PutU32(x) + PutU32(y))
    {
      hide PutU32;
      next := Put4(nb, x);
      next := Put4(next, y);
      assert old(attrsBuf[..nb]) + PutU32(x) + PutU32(y) == old(attrsBuf[..nb]) + (PutU32(x) + PutU32(y));
    }

    /** The eight bytes of a size, each by one division. */
    method Put8(nb: nat, n: safe) returns (next: nat)
      requires nb + 8 <= attrsBuf.Length
      modifies attrsBuf
      ensures next == nb + 8 && attrsBuf[..next] == old(attrsBuf[..nb]) + PutU64(n)
    {
      DigitsOfU64(n);
      ShiftedByFour(n);
      ShiftedByEight(n);
      NotShifted(n);
      hide PutU64, GetU64, Shifted;
      attrsBuf[nb] := (n / (0x100_0000 * TWO_32) % 256) as byte;
      attrsBuf[nb + 1] := (n / (0x1_0000 * TWO_32) % 256) as byte;
      attrsBuf[nb + 2] := (n / (0x100 * TWO_32) % 256) as byte;
      attrsBuf[nb + 3] := (n / TWO_32 % 256) as byte;
      attrsBuf[nb + 4] := (n / 0x100_0000 % 256) as byte;
      attrsBuf[nb + 5] := (n / 0x1_0000 % 256) as byte;
      attrsBuf[nb + 6] := (n / 0x100 % 256) as byte;
      attrsBuf[nb + 7] := (n % 256) as byte;
      next := nb + 8;
      assert attrsBuf[nb..next] == Digits(n, 8);
      assert attrsBuf[..next] == attrsBuf[..nb] + attrsBuf[nb..next];
    }

    method AttrsToBytes(a: Attributes) returns (flags: uint32, nb: nat)
      requires attrsBuf.Length == 28
      modifies attrsBuf
      ensures flags == Flags(a) && nb <= 28 && attrsBuf[..nb] == AttrBytes(a)
    {
      hide PutU32, PutU64, GetU64, GetU32;
      flags, nb := 0, 0;
      assert attrsBuf[..0] == [];
      if a.size.Some? {
        flags := flags + SIZE;
        nb := Put8(nb, a.size.value);
      }
      assert attrsBuf[..nb] == SizeBytes(a);
      if a.uid.Some? && a.gid.Some? {
        flags := flags + UIDGID;
        nb := PutPair(nb, a.uid.value, a.gid.value);
      }
      assert attrsBuf[..nb] == SizeBytes(a) + Pair(a.uid, a.gid);
      if a.mode.Some? {
        flags := flags + PERMISSIONS;
        nb := Put4(nb, a.mode.value);
      }
      assert attrsBuf[..nb] == SizeBytes(a) + Pair(a.uid, a.gid) + ModeBytes(a);
      if a.atime.Some? && a.mtime.Some? {
        flags := flags + ACMODTIME;
        nb := PutPair(nb, a.atime.value, a.mtime.value);
      }
    }

    /** `name`: the attributes of every entry are collected first, each copied out of the shared
        buffer before the next one overwrites it. */
    method WriteName(reqid: uint32, names: seq<Name>) returns (payload: Bytes)
      requires attrsBuf.Length == 28 && Sendable(names)
      modifies attrsBuf
      ensures payload == NamePayload(reqid, names)
    {
      var attrs := CollectAttrs(names);
      payload := [NAME] + PutU32(reqid);
      payload := payload + PutU32(|names|);
      payload := WriteEntries(payload, names, attrs);
    }

    /** The second loop of `name`. */
    method WriteEntries(head: Bytes, names: seq<Name>, attrs: seq<(uint32, Bytes)>) returns (payload: Bytes)
      requires Sendable(names) && |attrs| == |names|
      requires forall j | 0 <= j < |names| ::
                 attrs[j] == (Flags(names[j].attrs.GetOr(NOTHING)), AttrBytes(names[j].attrs.GetOr(NOTHING)))
      ensures payload == head + PutNames(names)
    {
      hide PutU32, Flags, AttrBytes;
      payload := head;
      var i := 0;
      assert names[0..] == names;
      while i < |names|
        invariant i <= |names|
        invariant payload + PutNames(names[i..]) == head + PutNames(names)
      {
        var name := names[i];
        ghost var before := payload;
        ShiftOne(before, names, i);
        hide PutName, PutNames;
        payload := payload + PutU32(|name.filename|) + name.filename;
        payload := payload + PutU32(|name.longname|) + name.longname;
        payload := payload + PutU32(attrs[i].0) + attrs[i].1;
        EntryWritten(before, name, attrs[i].0, attrs[i].1);
        i := i + 1;
      }
      assert names[i..] == [];
      assert payload + [] == payload;
    }

    /** The first loop of `name`. */
    method CollectAttrs(names: seq<Name>) returns (attrs: seq<(uint32, Bytes)>)
      requires attrsBuf.Length == 28
      modifies attrsBuf
      ensures |attrs| == |names|
      ensures forall j | 0 <= j < |names| ::
                attrs[j] == (Flags(names[j].attrs.GetOr(NOTHING)), AttrBytes(names[j].attrs.GetOr(NOTHING)))
    {
      attrs := [];
      hide AttrBytes, Flags;
      var i := 0;
      while i < |names|
        invariant |attrs| == i <= |names|
        invariant forall j | 0 <= j < i ::
                    attrs[j] == (Flags(names[j].attrs.GetOr(NOTHING)), AttrBytes(names[j].attrs.GetOr(NOTHING)))
      {
        if names[i].attrs.Some? {
          var flags, nb := AttrsToBytes(names[i].attrs.value);
          var bytes := attrsBuf[..nb];
          attrs := attrs + [(flags, bytes)];
        } else {
          NothingIsEmpty();
          attrs := attrs + [(0, [])];
        }
        i := i + 1;
      }
    }
  }

  lemma ShiftOne(before: Bytes, names: seq<Name>, i: nat)
    requires i < |names| && Sendable(names)
    ensures before + PutNames(names[i..]) == (before + PutName(names[i])) + PutNames(names[i + 1..])
  {
    hide PutName;
    assert names[i..][0] == names[i] && names[i..][1..] == names[i + 1..];
  }

  lemma NotShifted(n: nat)
    ensures Shifted(n, 0) == n
  {
  }

  lemma NothingIsEmpty()
    ensures Flags(NOTHING) == 0 && AttrBytes(NOTHING) == []
  {
  }

  lemma EntryWritten(before: Bytes, n: Name, flags: uint32, bytes: Bytes)
    requires |n.filename| < TWO_32 && |n.longname| < TWO_32
    requires flags == Flags(n.attrs.GetOr(NOTHING)) && bytes == AttrBytes(n.attrs.GetOr(NOTHING))
    ensures before + PutU32(|n.filename|) + n.filename + PutU32(|n.longname|) + n.longname + PutU32(flags) + bytes
            == before + PutName(n)
  {
    PutAttrsIs(n.attrs);
    hide PutU32, PutAttrs, Flags, AttrBytes;
  }
}
