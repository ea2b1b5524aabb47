/** The channel manager: which ids it hands out, over any sequence of calls, for any maximum. */
module ChannelIds {
  import opened Common

  /** `channels` holds what is registered under each live id; every value registered counts as
      true for the source. */
  datatype Table<V> = Table(channels: map<nat, V>, cur: int, count: int)

  function Empty<V>(): Table<V> {
    Table(map[], -1, 0)
  }

  /** The least id from `from` on, below `max`, that is free. */
  function Search<V>(channels: map<nat, V>, from: nat, max: nat): (r: Option<nat>)
    ensures r.None? <==> forall i | from <= i < max :: i in channels
    ensures r.Some? ==> from <= r.value < max && r.value !in channels
    decreases max - from
  {
    if from >= max then None
    else if from !in channels then Some(from)
    else Search(channels, from + 1, max)
  }

  /** The id `add` hands out, or none for its -1. */
  function NewId<V>(t: Table<V>, max: nat): Option<nat> {
    if t.cur < max then (if t.cur + 1 >= 0 then Some(t.cur + 1) else None)
    else if t.count == 0 then Some(0)
    else Search(t.channels, 0, max)
  }

  function Added<V>(t: Table<V>, v: V, max: nat): Table<V> {
    var id := NewId(t, max);
    if id.None? then t
    else
      Table(t.channels[id.value := v],
            if t.cur < max then t.cur + 1 else if t.count == 0 then 0 else t.cur,
            t.count + 1)
  }

  /** `remove`, where it does not throw. */
  function Removed<V>(t: Table<V>, id: nat): Table<V> {
    if id !in t.channels then t
    else Table(t.channels - {id}, t.cur, if t.count != 0 then t.count - 1 else t.count)
  }

  /** `update`, where it does not throw; without a value nothing happens. */
  function Updated<V>(t: Table<V>, id: nat, v: Option<V>): Table<V> {
    if v.None? || id !in t.channels then t else t.(channels := t.channels[id := v.value])
  }

  ghost predicate Valid<V>(t: Table<V>, max: nat) {
    && t.count == |t.channels|
    && -1 <= t.cur <= max
    && forall id <- t.channels :: id <= t.cur
  }

  lemma AddKeeps<V>(t: Table<V>, v: V, max: nat)
    requires Valid(t, max)
    ensures Valid(Added(t, v, max), max)
    ensures NewId(t, max).Some? ==> NewId(t, max).value !in t.channels && NewId(t, max).value <= max
  {
    if t.cur >= max && t.count == 0 {
      assert t.channels == map[];
    }
    var id := NewId(t, max);
    if id.Some? {
      assert t.channels[id.value := v].Keys == t.channels.Keys + {id.value};
    }
  }

  lemma RemoveKeeps<V>(t: Table<V>, id: nat, max: nat)
    requires Valid(t, max)
    ensures Valid(Removed(t, id), max)
  {
    if id in t.channels {
      assert (t.channels - {id}).Keys == t.channels.Keys - {id};
      assert |t.channels.Keys| == |t.channels|;
    }
  }

  lemma UpdateKeeps<V>(t: Table<V>, id: nat, v: Option<V>, max: nat)
    requires Valid(t, max)
    ensures Valid(Updated(t, id, v), max)
  {
    if v.Some? && id in t.channels {
      assert t.channels[id := v.value].Keys == t.channels.Keys;
    }
  }

  // ----- Any sequence of calls -----

  datatype Call<V> = Adds(v: V) | Updates(id: nat, now: Option<V>) | Removes(id: nat) | CleansUp

  /** A call that throws changes nothing. */
  function After<V>(t: Table<V>, c: Call<V>, max: nat): Table<V> {
    match c
    case Adds(v) => Added(t, v, max)
    case Updates(id, v) => if id >= max then t else Updated(t, id, v)
    case Removes(id) => if id >= max then t else Removed(t, id)
    case CleansUp => Empty()
  }

  function Exec<V>(calls: seq<Call<V>>, max: nat): Table<V>
    decreases |calls|
  {
    if calls == [] then Empty() else After(Exec(calls[..|calls| - 1], max), calls[|calls| - 1], max)
  }

  lemma {:induction false} AlwaysValid<V>(calls: seq<Call<V>>, max: nat)
    ensures Valid(Exec(calls, max), max)
    decreases |calls|
  {
    if calls != [] {
      var init := calls[..|calls| - 1];
      AlwaysValid(init, max);
      var t := Exec(init, max);
      hide Valid, Added, Removed, Updated;
      match calls[|calls| - 1]
      case Adds(v) => AddKeeps(t, v, max);
      case Updates(id, v) => UpdateKeeps(t, id, v, max);
      case Removes(id) => RemoveKeeps(t, id, max);
      case CleansUp =>
        EmptyIsValid<V>(max);
    } else {
      EmptyIsValid<V>(max);
    }
  }

  lemma EmptyIsValid<V>(max: nat)
    ensures Valid(Empty<V>(), max)
  {
  }

  /** After any calls: the count is that of the live ids, none of which is beyond the last one
      handed out; the next id handed out is not live; and there is none exactly when the quick ways
      are used up and every id below the maximum is live. */
  lemma {:induction false} NeverALiveId<V>(calls: seq<Call<V>>, max: nat)
    ensures var t := Exec(calls, max);
            && t.count == |t.channels| && (forall id <- t.channels :: id <= t.cur <= max)
            && (NewId(t, max).Some? ==> NewId(t, max).value !in t.channels)
            && (NewId(t, max).None? <==>
                  t.cur == max && t.count > 0 && forall i | 0 <= i < max :: i in t.channels)
  {
    AlwaysValid(calls, max);
    var t := Exec(calls, max);
    hide Exec;
    if t.count == 0 {
      assert t.channels == map[];
    }
  }

  /** One id on its own: registered when it is handed out, changed and removed by calls that name it and
      do not throw, and by nothing else but a cleanup. */
  function Registered<V>(calls: seq<Call<V>>, max: nat, id: nat): Option<V>
    decreases |calls|
  {
    if calls == [] then None
    else
      var init := calls[..|calls| - 1];
      var before := Registered(init, max, id);
      match calls[|calls| - 1]
      case Adds(v) => if NewId(Exec(init, max), max) == Some(id) then Some(v) else before
      case Updates(i, now) => if i == id < max && now.Some? && before.Some? then now else before
      case Removes(i) => if i == id < max then None else before
      case CleansUp => None
  }

  /** After any calls, the table holds exactly that for every id. */
  lemma {:induction false} EachIdOnItsOwn<V>(calls: seq<Call<V>>, max: nat, id: nat)
    ensures var t := Exec(calls, max);
            (if id in t.channels then Some(t.channels[id]) else None) == Registered(calls, max, id)
    decreases |calls|
  {
    if calls != [] {
      hide NewId;
      EachIdOnItsOwn(calls[..|calls| - 1], max, id);
    }
  }

  /** The quick ways agree with the search about whether an id is left, with one exception: when the
      last id handed out is the one before the maximum and all ids below are live, the maximum
      itself is handed out. */
  lemma QuickWaysAgree<V>(t: Table<V>, max: nat)
    requires Valid(t, max) && max > 0
    ensures (NewId(t, max).Some? <==> Search(t.channels, 0, max).Some?)
            <==> !(t.cur == max - 1 && forall i | 0 <= i < max :: i in t.channels)
  {
    if t.count == 0 {
      assert t.channels == map[];
    }
    if t.cur + 1 < max {
      assert t.cur + 1 !in t.channels;
    }
  }

  /** An id that is handed out can be given back exactly if it is not the maximum, and it is the
      maximum exactly when the last one was just before it. */
  lemma MaximumIsHandedOut<V>(t: Table<V>, max: nat)
    requires Valid(t, max) && NewId(t, max).Some? && max > 0
    ensures NewId(t, max).value < max <==> t.cur != max - 1
  {
  }

  /** Once handed out, the maximum stays live until everything is cleaned up, and so the count never
      gets back to zero. */
  lemma MaximumStays<V>(calls: seq<Call<V>>, c: Call<V>, max: nat)
    requires max in Exec(calls, max).channels && c != CleansUp
    ensures max in Exec(calls + [c], max).channels && Exec(calls + [c], max).count > 0
  {
    var t := Exec(calls, max);
    assert (calls + [c])[..|calls|] == calls;
    AlwaysValid(calls + [c], max);
    var u := Exec(calls + [c], max);
    assert u == After(t, c, max);
    hide Exec;
    assert max in u.channels;
    assert u.channels.Keys != {};
  }

  /** Ids in use at once: the first `n`. */
  lemma {:induction false} Opening<V>(v: V, n: nat, max: nat)
    requires n <= max + 1
    ensures var t := Exec(seq(n, _ => Adds(v)), max);
            t.cur == n - 1 && t.count == n && forall i: nat :: i in t.channels <==> i < n
  {
    if n > 0 {
      Opening(v, n - 1, max);
      var calls := seq(n, _ => Adds(v));
      assert calls[..n - 1] == seq(n - 1, _ => Adds(v)) && calls[n - 1] == Adds(v);
    }
  }

  /** All of this is reached by opening one channel after another: with `max` of them open the search
      would find none, and one more is given the maximum for its id. */
  lemma MaximumIsReached<V>(v: V, max: nat)
    requires max > 0
    ensures var t := Exec(seq(max, _ => Adds(v)), max);
            && t.cur == max - 1 && Search(t.channels, 0, max).None? && NewId(t, max) == Some(max)
            && max in Exec(seq(max + 1, _ => Adds(v)), max).channels
  {
    Opening(v, max, max);
    Opening(v, max + 1, max);
    hide Exec;
  }

  class ChannelManager<V> {
    const max: nat
    var channels: map<nat, V>
    var cur: int
    var count: int

    ghost function View(): Table<V>
      reads this
    {
      Table(channels, cur, count)
    }

    constructor (max: nat)
      ensures View() == Empty() && this.max == max
    {
      this.max := max;
      channels, cur, count := map[], -1, 0;
    }

    /** `add` */
    method Add(v: V) returns (id: int)
      requires Valid(View(), max)
      modifies this
      ensures View() == Added(old(View()), v, max) && Valid(View(), max)
      ensures id == match NewId(old(View()), max) case Some(i) => i case None => -1
    {
      AddKeeps(View(), v, max);
      var found: nat;
      if cur < max {
        cur := cur + 1;
        found := cur;
      } else if count == 0 {
        cur := 0;
        found := 0;
      } else {
        var i := 0;
        while i < max && i in channels
          invariant i <= max
          invariant Search(channels, 0, max) == Search(channels, i, max)
        {
          i := i + 1;
        }
        if i == max {
          return -1;
        }
        found := i;
      }
      channels := channels[found := v];
      count := count + 1;
      return found;
    }

    /** `remove`; whether it did not throw. */
    method Remove(id: int) returns (ok: bool)
      requires Valid(View(), max)
      modifies this
      ensures ok <==> 0 <= id < max
      ensures View() == if ok then Removed(old(View()), id) else old(View())
      ensures Valid(View(), max)
    {
      if id < 0 || id >= max {
        return false;
      }
      RemoveKeeps(View(), id, max);
      if id in channels {
        channels := channels - {id};
        if count != 0 {
          count := count - 1;
        }
      }
      return true;
    }

    /** `update`; whether it did not throw. */
    method Update(id: int, v: Option<V>) returns (ok: bool)
      requires Valid(View(), max)
      modifies this
      ensures ok <==> 0 <= id < max
      ensures View() == if ok then Updated(old(View()), id, v) else old(View())
      ensures Valid(View(), max)
    {
      if id < 0 || id >= max {
        return false;
      }
      UpdateKeeps(View(), id, v, max);
      if v.Some? && id in channels {
        channels := channels[id := v.value];
      }
      return true;
    }

    /** `cleanup`; returns what was registered. */
    method Cleanup() returns (all: map<nat, V>)
      modifies this
      ensures View() == Empty() && all == old(channels)
    {
      all := channels;
      channels, cur, count := map[], -1, 0;
    }
  }
}
