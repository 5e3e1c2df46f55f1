/** The ring buffer of entered lines (terminal.go: stRingBuffer). */
module History {
  import opened Results

  const DEFAULT_NUM_ENTRIES := 100

  class StRingBuffer {
    /** Allocated by the first Add. */
    var entries: array?<string>
    var head: nat
    var size: nat
    /** All lines ever added, oldest first. */
    ghost var log: seq<string>

    ghost predicate Valid()
      reads this, entries
    {
      && head < DEFAULT_NUM_ENTRIES && size == Kept(log)
      && (entries == null ==> log == []) && (entries != null ==> entries.Length == DEFAULT_NUM_ENTRIES)
      && (forall n | 0 <= n < size :: entries[Place(n)] == log[|log| - 1 - n])
    }

    /** Where the n-th previous entry is kept. */
    function Place(n: nat): nat
      requires head < DEFAULT_NUM_ENTRIES && n < DEFAULT_NUM_ENTRIES
      reads this
    {
      if head >= n then head - n else head + DEFAULT_NUM_ENTRIES - n
    }

    constructor ()
      ensures Valid() && log == [] && entries == null
    {
      entries, head, size, log := null, 0, 0, [];
    }

    method Add(a: string)
      requires Valid()
      modifies this, entries
      ensures Valid() && log == old(log) + [a] && (entries == old(entries) || fresh(entries))
    {
      if entries == null {
        entries := new string[DEFAULT_NUM_ENTRIES];
      }
      head := (head + 1) % DEFAULT_NUM_ENTRIES;
      entries[head] := a;
      if size < DEFAULT_NUM_ENTRIES {
        size := size + 1;
      }
      log := log + [a];
      forall n | 0 <= n < size
        ensures entries[Place(n)] == log[|log| - 1 - n]
      {
        if n > 0 {
          assert Place(n) != head && Place(n) == old(Place(n - 1));
        }
      }
    }

    /** The line added by the n-th previous call of Add, as long as it is among the last hundred. */
    method NthPreviousEntry(n: nat) returns (r: Option<string>)
      requires Valid()
      ensures r == NthPrevious(log, n)
    {
      if n >= size {
        return None;
      }
      var index: int := head - n;
      if index < 0 {
        index := index + DEFAULT_NUM_ENTRIES;
      }
      assert index == Place(n);
      return Some(entries[index]);
    }
  }

  function Kept(log: seq<string>): nat {
    if |log| < DEFAULT_NUM_ENTRIES then |log| else DEFAULT_NUM_ENTRIES
  }

  function NthPrevious(log: seq<string>, n: nat): Option<string> {
    if n < Kept(log) then Some(log[|log| - 1 - n]) else None
  }
}
