/** The list that numbers channels (mux.go: chanList). */
module ChanLists {
  import opened ByteStrings
  import opened Results

  /** The first free place, or the length. */
  function FreeSlot<T>(slots: seq<Option<T>>): (i: nat)
    ensures i <= |slots| && (i < |slots| ==> slots[i].None?)
    ensures forall j | 0 <= j < i :: slots[j].Some?
  {
    if slots == [] || slots[0].None? then 0 else 1 + FreeSlot(slots[1..])
  }

  function Lookup<T>(slots: seq<Option<T>>, id: nat): Option<T> {
    if id < |slots| then slots[id] else None
  }

  /** The channels of a list in order. */
  function Listed<T>(slots: seq<Option<T>>): seq<T> {
    if slots == [] then [] else (if slots[0].Some? then [slots[0].value] else []) + Listed(slots[1..])
  }

  lemma {:induction false} ListedSnoc<T>(slots: seq<Option<T>>, x: Option<T>)
    ensures Listed(slots + [x]) == Listed(slots) + if x.Some? then [x.value] else []
  {
    if slots == [] {
      assert slots + [x] == [x];
    } else {
      assert (slots + [x])[1..] == slots[1..] + [x] && (slots + [x])[0] == slots[0];
      ListedSnoc(slots[1..], x);
      var h := if slots[0].Some? then [slots[0].value] else [];
      var t := if x.Some? then [x.value] else [];
      assert h + (Listed(slots[1..]) + t) == h + Listed(slots[1..]) + t;
    }
  }

  class ChanList<T> {
    var chans: seq<Option<T>>
    const offset: nat

    /** Go's id - offset in uint32. */
    function Index(id: nat): nat {
      (id + TWO32 - offset % TWO32) % TWO32
    }

    /** The list as a map from channel numbers; place i has the number i + offset in uint32. */
    ghost function Map(): map<nat, T>
      reads this
    {
      map id: nat | id < TWO32 && Index(id) < |chans| && chans[Index(id)].Some? :: chans[Index(id)].value
    }

    ghost predicate Valid()
      reads this
    {
      |chans| < TWO32
    }

    constructor (offset: nat)
      ensures Valid() && Map() == map[] && this.offset == offset
    {
      chans := [];
      this.offset := offset;
    }

    /** The new channel gets a number that stood for none, and no other number changes its meaning; with 2^32 - 1
        channels listed there is no room for another. */
    method Add(ch: T) returns (id: nat)
      requires Valid()
      modifies this
      ensures id == (FreeSlot(old(chans)) + offset) % TWO32
      ensures FreeSlot(old(chans)) < TWO32 - 1 ==>
                Valid() && id !in old(Map()) && Map() == old(Map())[id := ch]
    {
      var i := 0;
      while i < |chans|
        invariant i <= |chans| && chans == old(chans)
        invariant forall j | 0 <= j < i :: chans[j].Some?
      {
        if chans[i].None? {
          chans := chans[i := Some(ch)];
          id := (i + offset) % TWO32;
          IndexOf(i);
          IndexInjective();
          return;
        }
        i := i + 1;
      }
      chans := chans + [Some(ch)];
      id := (|chans| - 1 + offset) % TWO32;
      IndexOf(|chans| - 1);
      IndexInjective();
    }

    lemma IndexOf(i: nat)
      requires i < TWO32
      ensures Index((i + offset) % TWO32) == i
    {
    }

    lemma IndexInjective()
      ensures forall a: nat, b: nat | a < TWO32 && b < TWO32 && Index(a) == Index(b) :: a == b
    {
    }

    method GetChan(id: nat) returns (ch: Option<T>)
      requires Valid() && id < TWO32
      ensures ch == if id in Map() then Some(Map()[id]) else None
    {
      var i := Index(id);
      if i < |chans| {
        return chans[i];
      }
      return None;
    }

    method Remove(id: nat)
      requires Valid() && id < TWO32
      modifies this
      ensures Valid() && Map() == old(Map()) - {id}
    {
      var i := Index(id);
      if i < |chans| {
        IndexInjective();
        chans := chans[i := None];
      }
    }

    /** Hands out every channel in the list, in order, and forgets them all. */
    method DropAll() returns (r: seq<T>)
      requires Valid()
      modifies this
      ensures Valid() && Map() == map[]
      ensures r == Listed(old(chans))
    {
      r := [];
      for i := 0 to |chans|
        invariant chans == old(chans) && r == Listed(chans[..i])
      {
        assert chans[..i + 1] == chans[..i] + [chans[i]];
        ListedSnoc(chans[..i], chans[i]);
        if chans[i].None? {
          continue;
        }
        r := r + [chans[i].value];
      }
      assert chans[..|chans|] == chans;
      chans := [];
    }
  }
}
