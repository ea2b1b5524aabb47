/** Algorithm negotiation: the KEXINIT payload, and what each end makes of its own offer and the
    other's payload. */
module Negotiation {
  import opened Common
  import opened FrameSpec

  type Name = Bytes

  const COMMA: byte := 44
  const KEXINIT: byte := 20
  const COOKIE_LENGTH: nat := 16

  /** The ten name-lists in the order of the message. */
  type Lists = seq<seq<Name>>

  const KEX: nat := 0
  const HOST_KEY: nat := 1
  const CS_CIPHER: nat := 2
  const SC_CIPHER: nat := 3
  const CS_MAC: nat := 4
  const SC_MAC: nat := 5
  const CS_COMPRESS: nat := 6
  const SC_COMPRESS: nat := 7
  const CATEGORIES: nat := 8
  const LISTS: nat := 10

  // ----- Name-lists -----

  /** `list.join(',')` */
  function JoinNames(list: seq<Name>): Bytes {
    if list == [] then []
    else if |list| == 1 then list[0]
    else list[0] + [COMMA] + JoinNames(list[1..])
  }

  /** The length of the first name. */
  function FirstComma(s: Bytes): (i: nat)
    ensures i <= |s| && (i < |s| ==> s[i] == COMMA)
  {
    if s == [] || s[0] == COMMA then 0 else 1 + FirstComma(s[1..])
  }

  /** `s.split(',')` */
  function SplitNames(s: Bytes): (list: seq<Name>)
    ensures list != []
    decreases |s|
  {
    var i := FirstComma(s);
    if i == |s| then [s] else [s[..i]] + SplitNames(s[i + 1..])
  }

  /** `readList`, once the string is read. */
  function ReadNames(s: Bytes): seq<Name> {
    if s == [] then [] else SplitNames(s)
  }

  lemma {:induction false} NoneBefore(s: Bytes, k: nat)
    requires k < FirstComma(s)
    ensures s[k] != COMMA
    decreases |s|
  {
    if k > 0 {
      NoneBefore(s[1..], k - 1);
    }
  }

  lemma FirstCommaIs(a: Bytes, b: Bytes)
    requires COMMA !in a && (b == [] || b[0] == COMMA)
    ensures FirstComma(a + b) == |a|
  {
    hide FirstComma;
    var s, i := a + b, FirstComma(a + b);
    forall k | 0 <= k < |a| ensures s[k] != COMMA {
      assert s[k] == a[k];
    }
    assert b != [] ==> s[|a|] == b[0];
    if |a| < i {
      NoneBefore(s, |a|);
    }
  }

  lemma {:induction false} SplitHasNoComma(s: Bytes)
    ensures forall n <- SplitNames(s) :: COMMA !in n
    decreases |s|
  {
    hide SplitNames, FirstComma;
    var i := FirstComma(s);
    SplitOne(s, i);
    forall k | 0 <= k < i ensures s[k] != COMMA {
      NoneBefore(s, k);
    }
    assert forall n | n == s[..i] :: COMMA !in n;
    if i < |s| {
      SplitHasNoComma(s[i + 1..]);
    } else {
      assert s[..i] == s;
    }
  }

  lemma SplitOne(s: Bytes, i: nat)
    requires i == FirstComma(s)
    ensures SplitNames(s) == if i == |s| then [s] else [s[..i]] + SplitNames(s[i + 1..])
  {
    hide FirstComma;
  }

  lemma BehindComma(a: Bytes, b: Bytes)
    ensures var s := a + ([COMMA] + b);
            |s| > |a| && s[..|a|] == a && s[|a| + 1..] == b
  {
  }

  lemma {:induction false} SplitJoined(list: seq<Name>)
    requires list != [] && forall n <- list :: COMMA !in n
    ensures SplitNames(JoinNames(list)) == list
    decreases |list|
  {
    hide SplitNames, FirstComma;
    var first := list[0];
    if |list| == 1 {
      FirstCommaIs(first, []);
      assert first + [] == first;
      SplitOne(first, |first|);
    } else {
      var rest := JoinNames(list[1..]);
      assert JoinNames(list) == first + ([COMMA] + rest) by {
        assert (first + [COMMA]) + rest == first + ([COMMA] + rest);
      }
      hide JoinNames;
      FirstCommaIs(first, [COMMA] + rest);
      BehindComma(first, rest);
      SplitOne(JoinNames(list), |first|);
      SplitJoined(list[1..]);
    }
  }

  /** A list comes through exactly if no name has a comma in it and it is not just one empty name. */
  predicate Plain(list: seq<Name>) {
    (forall n <- list :: COMMA !in n) && list != [[]]
  }

  lemma NamesRoundTrip(list: seq<Name>)
    ensures ReadNames(JoinNames(list)) == list <==> Plain(list)
  {
    var s := JoinNames(list);
    SplitOne([], 0);
    SplitHasNoComma(s);
    hide SplitNames, FirstComma;
    if Plain(list) && list != [] {
      SplitJoined(list);
    }
  }

  // ----- The payload -----

  function PutString(s: Bytes): Bytes
    requires |s| < TWO_32
  {
    PutU32(|s|) + s
  }

  /** A string and what comes after it. */
  function ReadString(b: Bytes): Option<(Bytes, Bytes)> {
    if |b| < 4 || |b| - 4 < GetU32(b) then None
    else Some((b[4..4 + GetU32(b)], b[4 + GetU32(b)..]))
  }

  predicate Sendable(lists: Lists) {
    |lists| == LISTS && forall l <- lists :: |JoinNames(l)| < TWO_32
  }

  function PutLists(lists: Lists): Bytes
    requires forall l <- lists :: |JoinNames(l)| < TWO_32
  {
    if lists == [] then [] else PutString(JoinNames(lists[0])) + PutLists(lists[1..])
  }

  function ReadLists(b: Bytes, n: nat): Option<Lists> {
    if n == 0 then Some([])
    else
      var s := ReadString(b);
      if s.None? then None
      else
        var rest := ReadLists(s.value.1, n - 1);
        if rest.None? then None else Some([ReadNames(s.value.0)] + rest.value)
  }

  /** `kexinit`: what is sent for an offer. */
  function InitPayload(cookie: Bytes, lists: Lists): Bytes
    requires Sendable(lists)
  {
    [KEXINIT] + cookie + PutLists(lists) + [0, 0, 0, 0, 0]
  }

  function ParseInit(payload: Bytes): Option<Lists> {
    if |payload| < 1 + COOKIE_LENGTH then None else ReadLists(payload[1 + COOKIE_LENGTH..], LISTS)
  }

  lemma StringRoundTrip(s: Bytes, rest: Bytes)
    requires |s| < TWO_32
    ensures ReadString(PutString(s) + rest) == Some((s, rest))
  {
    var b := PutString(s) + rest;
    assert b[..4] == PutU32(|s|) && GetU32(b) == GetU32(b[..4]);
    assert b[4..4 + |s|] == s && b[4 + |s|..] == rest;
  }

  /** Each list as the peer reads it. */
  function AsRead(lists: Lists): Lists {
    seq(|lists|, i requires 0 <= i < |lists| => ReadNames(JoinNames(lists[i])))
  }

  lemma FirstAsRead(lists: Lists)
    requires lists != []
    ensures AsRead(lists) == [ReadNames(JoinNames(lists[0]))] + AsRead(lists[1..])
  {
    hide ReadNames, JoinNames;
  }

  lemma {:induction false} ListsRoundTrip(lists: Lists, rest: Bytes)
    requires forall l <- lists :: |JoinNames(l)| < TWO_32
    ensures ReadLists(PutLists(lists) + rest, |lists|) == Some(AsRead(lists))
    decreases |lists|
  {
    hide PutString, ReadString, JoinNames, ReadNames;
    if lists != [] {
      var s, more := JoinNames(lists[0]), PutLists(lists[1..]);
      assert lists[0] in lists && forall l <- lists[1..] :: l in lists;
      assert (PutString(s) + more) + rest == PutString(s) + (more + rest);
      StringRoundTrip(s, more + rest);
      ListsRoundTrip(lists[1..], rest);
      FirstAsRead(lists);
    }
  }

  /** The offer comes through as it is exactly if every list is plain. */
  lemma InitRoundTrip(cookie: Bytes, lists: Lists)
    requires Sendable(lists) && |cookie| == COOKIE_LENGTH
    ensures ParseInit(InitPayload(cookie, lists)) == Some(AsRead(lists))
    ensures AsRead(lists) == lists <==> forall l <- lists :: Plain(l)
  {
    var payload := InitPayload(cookie, lists);
    assert payload[1 + COOKIE_LENGTH..] == PutLists(lists) + [0, 0, 0, 0, 0];
    ListsRoundTrip(lists, [0, 0, 0, 0, 0]);
    forall l | l in lists ensures ReadNames(JoinNames(l)) == l <==> Plain(l) {
      NamesRoundTrip(l);
    }
    hide JoinNames, ReadNames, Plain, PutLists, ReadLists;
    if AsRead(lists) == lists {
      forall l | l in lists ensures Plain(l) {
        var i :| 0 <= i < |lists| && lists[i] == l;
        assert AsRead(lists)[i] == lists[i];
      }
    }
  }

  // ----- Agreement -----

  /** Where the first name of the client's list is that the server has, too. */
  function Search(client: seq<Name>, server: seq<Name>): (i: nat)
    ensures i <= |client| && (i < |client| ==> client[i] in server)
    ensures forall j | 0 <= j < i :: client[j] !in server
  {
    if client == [] || client[0] in server then 0
    else
      var i := 1 + Search(client[1..], server);
      assert forall j | 1 <= j < i :: client[j] == client[1..][j - 1];
      i
  }

  /** The first name of the client's list that is in the server's, too: section 7.1 of RFC 4253. */
  function FirstCommon(client: seq<Name>, server: seq<Name>): (r: Option<Name>)
    ensures r.None? <==> forall n <- client :: n !in server
    ensures r.Some? ==> exists i :: 0 <= i < |client| && client[i] == r.value && r.value in server
                                    && forall j | 0 <= j < i :: client[j] !in server
  {
    var i := Search(client, server);
    if i == |client| then None else Some(client[i])
  }

  /** What is agreed per category; a cipher that authenticates needs no MAC. */
  datatype Outcome = Agreed(names: seq<Name>) | NoMatch(category: nat) | Malformed

  /** The category is not negotiated: it is a MAC for an AEAD cipher. `done` is what has been agreed
      before it. */
  predicate Implicit(category: nat, done: seq<Name>, aead: Name -> bool) {
    || (category == CS_MAC && |done| > CS_CIPHER && aead(done[CS_CIPHER]))
    || (category == SC_MAC && |done| > SC_CIPHER && aead(done[SC_CIPHER]))
  }

  /** The categories in turn, for either role. */
  function Negotiate(server: bool, local: Lists, remote: Lists, aead: Name -> bool, done: seq<Name>): (r: Outcome)
    requires |local| == LISTS && |remote| == LISTS && |done| <= CATEGORIES
    ensures r.Agreed? ==> |r.names| == CATEGORIES
    decreases CATEGORIES - |done|
  {
    var c := |done|;
    if c == CATEGORIES then Agreed(done)
    else if Implicit(c, done, aead) then Negotiate(server, local, remote, aead, done + [[]])
    else
      var clientList := if server then remote[c] else local[c];
      var serverList := if server then local[c] else remote[c];
      var r := FirstCommon(clientList, serverList);
      if r.None? then NoMatch(c) else Negotiate(server, local, remote, aead, done + [r.value])
  }

  function HandleKexInit(server: bool, local: Lists, payload: Bytes, aead: Name -> bool): (r: Outcome)
    requires |local| == LISTS
    ensures r.Agreed? ==> |r.names| == CATEGORIES
  {
    var remote := ParseInit(payload);
    if remote.None? then Malformed
    else
      ReadListsLength(payload[1 + COOKIE_LENGTH..], LISTS);
      Negotiate(server, local, remote.value, aead, [])
  }

  lemma {:induction false} ReadListsLength(b: Bytes, n: nat)
    ensures ReadLists(b, n).Some? ==> |ReadLists(b, n).value| == n
    decreases n
  {
    hide ReadString, ReadNames;
    if n > 0 && ReadString(b).Some? {
      ReadListsLength(ReadString(b).value.1, n - 1);
    }
  }

  lemma {:induction false} SameFromBothSides(client: Lists, server: Lists, aead: Name -> bool, done: seq<Name>)
    requires |client| == LISTS && |server| == LISTS && |done| <= CATEGORIES
    ensures Negotiate(true, server, client, aead, done) == Negotiate(false, client, server, aead, done)
    decreases CATEGORIES - |done|
  {
    var c := |done|;
    if c < CATEGORIES {
      hide FirstCommon;
      if Implicit(c, done, aead) {
        SameFromBothSides(client, server, aead, done + [[]]);
      } else if FirstCommon(client[c], server[c]).Some? {
        SameFromBothSides(client, server, aead, done + [FirstCommon(client[c], server[c]).value]);
      }
    }
  }

  /** The beginning of a string is not a string. */
  lemma StringCut(s: Bytes, w: Bytes)
    requires |s| < TWO_32 && w <= PutString(s) && w != PutString(s)
    ensures ReadString(w).None?
  {
    if |w| >= 4 {
      assert w[..4] == PutString(s)[..4] == PutU32(|s|);
      assert GetU32(w) == GetU32(w[..4]);
    }
  }

  lemma {:induction false} ListsCut(lists: Lists, w: Bytes)
    requires forall l <- lists :: |JoinNames(l)| < TWO_32
    requires w <= PutLists(lists) && w != PutLists(lists)
    ensures ReadLists(w, |lists|).None?
    decreases |lists|
  {
    if lists != [] {
      var first, more := PutString(JoinNames(lists[0])), PutLists(lists[1..]);
      assert lists[0] in lists && forall l <- lists[1..] :: l in lists;
      if |w| < |first| {
        assert w <= first;
        StringCut(JoinNames(lists[0]), w);
      } else {
        var rest := w[|first|..];
        assert w == first + rest && rest <= more;
        StringRoundTrip(JoinNames(lists[0]), rest);
        ListsCut(lists[1..], rest);
      }
    }
  }

  /** A KEXINIT cut off anywhere in its lists, or before, is malformed. */
  lemma CutIsMalformed(server: bool, local: Lists, cookie: Bytes, lists: Lists, n: nat, aead: Name -> bool)
    requires |local| == LISTS && Sendable(lists) && |cookie| == COOKIE_LENGTH
    requires n < 1 + COOKIE_LENGTH + |PutLists(lists)|
    ensures n <= |InitPayload(cookie, lists)|
    ensures HandleKexInit(server, local, InitPayload(cookie, lists)[..n], aead) == Malformed
  {
    var payload := InitPayload(cookie, lists);
    if n >= 1 + COOKIE_LENGTH {
      var w := payload[..n][1 + COOKIE_LENGTH..];
      assert payload[1 + COOKIE_LENGTH..] == PutLists(lists) + [0, 0, 0, 0, 0];
      assert w == PutLists(lists)[..n - 1 - COOKIE_LENGTH];
      ListsCut(lists, w);
    }
  }

  /** Each end handles the other's KEXINIT and both come to the same: the same algorithms, or a
      failure in the same category. */
  lemma BothEndsAgree(client: Lists, server: Lists, cookieC: Bytes, cookieS: Bytes, aead: Name -> bool)
    requires Sendable(client) && Sendable(server) && |cookieC| == COOKIE_LENGTH && |cookieS| == COOKIE_LENGTH
    requires (forall l <- client :: Plain(l)) && (forall l <- server :: Plain(l))
    ensures HandleKexInit(true, server, InitPayload(cookieC, client), aead)
            == HandleKexInit(false, client, InitPayload(cookieS, server), aead)
            != Malformed
  {
    InitRoundTrip(cookieC, client);
    InitRoundTrip(cookieS, server);
    hide ParseInit, InitPayload, AsRead, Plain;
    SameFromBothSides(client, server, aead, []);
    NeverMalformed(true, server, client, aead, []);
  }

  lemma {:induction false} NeverMalformed(server: bool, local: Lists, remote: Lists, aead: Name -> bool, done: seq<Name>)
    requires |local| == LISTS && |remote| == LISTS && |done| <= CATEGORIES
    ensures Negotiate(server, local, remote, aead, done) != Malformed
    decreases CATEGORIES - |done|
  {
    var c := |done|;
    if c < CATEGORIES {
      hide FirstCommon;
      var clientList := if server then remote[c] else local[c];
      var serverList := if server then local[c] else remote[c];
      if Implicit(c, done, aead) {
        NeverMalformed(server, local, remote, aead, done + [[]]);
      } else if FirstCommon(clientList, serverList).Some? {
        NeverMalformed(server, local, remote, aead, done + [FirstCommon(clientList, serverList).value]);
      }
    }
  }

  /** The MAC of a direction whose cipher authenticates. */
  predicate Needless(c: nat, names: seq<Name>, aead: Name -> bool) {
    || (c == CS_MAC && CS_CIPHER < |names| && aead(names[CS_CIPHER]))
    || (c == SC_MAC && SC_CIPHER < |names| && aead(names[SC_CIPHER]))
  }

  /** What is agreed, per category, stated without the procedure. */
  ghost predicate Right(client: Lists, server: Lists, aead: Name -> bool, names: seq<Name>, c: nat)
    requires c < |names| && c < |client| && c < |server|
  {
    if Needless(c, names, aead) then names[c] == []
    else
      && names[c] in server[c]
      && exists i :: 0 <= i < |client[c]| && client[c][i] == names[c]
                     && forall j | 0 <= j < i :: client[c][j] !in server[c]
  }

  /** Success means every category is right; failure that there are right choices for all before it
      and the two lists of it, which is not left out, have nothing in common. */
  lemma {:induction false} NegotiatedRight(client: Lists, server: Lists, aead: Name -> bool, done: seq<Name>)
    requires |client| == LISTS && |server| == LISTS && |done| <= CATEGORIES
    requires forall c | 0 <= c < |done| :: Right(client, server, aead, done, c)
    ensures match Negotiate(false, client, server, aead, done)
            case Agreed(names) =>
              |names| == CATEGORIES && forall c | 0 <= c < CATEGORIES :: Right(client, server, aead, names, c)
            case NoMatch(c) =>
              && c < CATEGORIES && (forall n <- client[c] :: n !in server[c])
              && exists names: seq<Name> ::
                   && |names| == c && !Needless(c, names, aead)
                   && forall b | 0 <= b < c :: Right(client, server, aead, names, b)
            case Malformed => false
    decreases CATEGORIES - |done|
  {
    var c := |done|;
    if c < CATEGORIES {
      var r := FirstCommon(client[c], server[c]);
      if Implicit(c, done, aead) || r.Some? {
        var next := done + [if Implicit(c, done, aead) then [] else r.value];
        forall b | 0 <= b < |next| ensures Right(client, server, aead, next, b) {
          assert Needless(b, next, aead) == Needless(b, if b < c then done else next, aead);
          if b < c {
            assert Right(client, server, aead, done, b);
          }
        }
        NegotiatedRight(client, server, aead, next);
      }
    }
  }

  /** In either direction a MAC is left out exactly for a cipher that authenticates, and the lack of a
      common MAC is a failure only for one that does not. */
  lemma MacsFitCiphers(client: Lists, server: Lists, aead: Name -> bool)
    requires |client| == LISTS && |server| == LISTS
    requires [] !in client[CS_MAC] && [] !in client[SC_MAC]
    ensures match Negotiate(false, client, server, aead, [])
            case Agreed(names) =>
              && (names[CS_MAC] == [] <==> aead(names[CS_CIPHER]))
              && (names[SC_MAC] == [] <==> aead(names[SC_CIPHER]))
            case NoMatch(c) =>
              var cipher := if c == SC_MAC then SC_CIPHER else CS_CIPHER;
              c == CS_MAC || c == SC_MAC ==>
                exists n <- client[cipher] :: !aead(n) && FirstCommon(client[cipher], server[cipher]) == Some(n)
            case Malformed => false
  {
    hide Negotiate;
    NegotiatedRight(client, server, aead, []);
    var o := Negotiate(false, client, server, aead, []);
    if o.Agreed? {
      assert Right(client, server, aead, o.names, CS_MAC) && Right(client, server, aead, o.names, SC_MAC);
    } else if o.category == CS_MAC || o.category == SC_MAC {
      var c := o.category;
      var cipher := if c == SC_MAC then SC_CIPHER else CS_CIPHER;
      var names :| && |names| == c && !Needless(c, names, aead)
                   && forall b | 0 <= b < c :: Right(client, server, aead, names, b);
      assert Right(client, server, aead, names, cipher);
      FirstIsUnique(client[cipher], server[cipher], names[cipher]);
    }
  }

  lemma FirstIsUnique(client: seq<Name>, server: seq<Name>, n: Name)
    requires n in server
    requires exists i :: 0 <= i < |client| && client[i] == n && forall j | 0 <= j < i :: client[j] !in server
    ensures FirstCommon(client, server) == Some(n)
  {
  }

  // ----- The loops -----

  /** The search in every category. */
  method FindAgreeable(clientList: seq<Name>, serverList: seq<Name>) returns (r: Option<Name>)
    ensures r == FirstCommon(clientList, serverList)
  {
    var i := 0;
    while i < |clientList| && clientList[i] !in serverList
      invariant 0 <= i <= |clientList|
      invariant forall j | 0 <= j < i :: clientList[j] !in serverList
    {
      i := i + 1;
    }
    return if i == |clientList| then None else Some(clientList[i]);
  }

  method Handle(server: bool, local: Lists, payload: Bytes, aead: Name -> bool) returns (r: Outcome)
    requires |local| == LISTS
    ensures r == HandleKexInit(server, local, payload, aead)
  {
    var parsed := ParseInit(payload);
    if parsed.None? {
      return Malformed;
    }
    var remote := parsed.value;
    ReadListsLength(payload[1 + COOKIE_LENGTH..], LISTS);
    hide ReadLists, FirstCommon, Implicit;
    var names: seq<Name> := [];
    while |names| < CATEGORIES
      invariant |names| <= CATEGORIES
      invariant HandleKexInit(server, local, payload, aead) == Negotiate(server, local, remote, aead, names)
      decreases CATEGORIES - |names|
    {
      var c := |names|;
      if Implicit(c, names, aead) {
        names := names + [[]];
      } else {
        var found := FindAgreeable(if server then remote[c] else local[c], if server then local[c] else remote[c]);
        if found.None? {
          return NoMatch(c);
        }
        names := names + [found.value];
      }
    }
    return Agreed(names);
  }
}
