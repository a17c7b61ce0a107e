/** A frame's deferred calls as the runtime keeps them: a linked list threaded through the entries. */
module DeferStack {
  import opened Unwinding

  class DeferStackEntry {
    var next: DeferStackEntry?
    const deferred: Deferred

    constructor (deferred: Deferred)
      ensures next == null && this.deferred == deferred
    {
      next := null;
      this.deferred := deferred;
    }
  }

  ghost function DeferredOf(entries: seq<DeferStackEntry>): seq<Deferred> {
    seq(|entries|, i requires 0 <= i < |entries| => entries[i].deferred)
  }

  ghost predicate Follows(entries: seq<DeferStackEntry>, i: nat)
    requires i < |entries|
    reads entries
  {
    entries[i].next == if i + 1 < |entries| then entries[i + 1] else null
  }

  class DeferStack {
    var head: DeferStackEntry?
    ghost var entries: seq<DeferStackEntry>

    /** The list visits `entries` in order, each once, and ends. */
    ghost predicate Valid()
      reads this, entries
    {
      && (forall i, j | 0 <= i < j < |entries| :: entries[i] != entries[j])
      && head == (if entries == [] then null else entries[0])
      && (forall i | 0 <= i < |entries| :: Follows(entries, i))
    }

    /** The deferred calls, the next to be called first. */
    ghost function Contents(): seq<Deferred>
      reads this
    {
      DeferredOf(entries)
    }

    constructor ()
      ensures Valid() && Contents() == []
    {
      head := null;
      entries := [];
    }

    method Push(entry: DeferStackEntry)
      requires Valid() && entry !in entries
      modifies this, entry
      ensures Valid() && entries == [entry] + old(entries)
      ensures Contents() == [entry.deferred] + old(Contents())
    {
      ghost var before := entries;
      entry.next := head;
      head := entry;
      entries := [entry] + entries;
      forall i | 0 < i < |entries| ensures Follows(entries, i) {
        assert entries[i] == before[i - 1] && old(Follows(before, i - 1));
      }
      assert DeferredOf(entries) == [entry.deferred] + DeferredOf(before);
    }

    method Pop() returns (entry: DeferStackEntry?)
      requires Valid()
      modifies this, entries
      ensures Valid()
      ensures old(entries) == [] ==> entry == null && entries == []
      ensures old(entries) != [] ==>
                && entry == old(entries)[0] && entry.next == null && entries == old(entries)[1..]
                && old(Contents()) == [entry.deferred] + Contents()
    {
      ghost var before := entries;
      entry := head;
      if entry != null {
        assert Follows(entries, 0);
        head := entry.next;
        entry.next := null;
        entries := entries[1..];
        assert before == [entry] + entries;
        forall i | 0 <= i < |entries| ensures Follows(entries, i) {
          assert entries[i] == before[i + 1] && old(Follows(before, i + 1));
        }
        assert DeferredOf(before) == [entry.deferred] + DeferredOf(entries);
      }
    }
  }
}
