/** The persisted list of transport states (internal/failover/state.go): a slice that is
    updated in place and grows by reallocation, so that a copy of its header may or may not
    see a later update. */
module StateFile {
  import opened Machine

  type Entries = seq<TransportState>

  predicate Keyed(e: TransportState, node: string, backend: string) {
    e.nodeId == node && e.backendId == backend
  }

  predicate SameKey(e: TransportState, st: TransportState) { Keyed(e, st.nodeId, st.backendId) }

  /** The record of a node and backend; a fresh one if there is none. */
  function Lookup(entries: Entries, node: string, backend: string): (r: TransportState) {
    if entries == [] then Fresh(node, backend)
    else if Keyed(entries[0], node, backend) then entries[0]
    else Lookup(entries[1..], node, backend)
  }

  /** The position of the first record with the key of `st`; the length if there is none. */
  function Position(entries: Entries, st: TransportState): (i: nat)
    ensures i <= |entries|
  {
    if entries == [] then 0
    else if SameKey(entries[0], st) then 0
    else 1 + Position(entries[1..], st)
  }

  /** The list after a record is put into it: in the place of the first one with its key, or
      at the end. */
  function PutIn(entries: Entries, st: TransportState): (r: Entries) {
    var i := Position(entries, st);
    if i < |entries| then entries[i := st] else entries + [st]
  }

  function PutAll(entries: Entries, sts: seq<TransportState>): (r: Entries) {
    if sts == [] then entries else PutIn(PutAll(entries, sts[..|sts| - 1]), sts[|sts| - 1])
  }

  ghost predicate UniqueRecords(entries: Entries) {
    forall i, j | 0 <= i < j < |entries| :: !SameKey(entries[i], entries[j])
  }

  lemma {:induction false} PositionIsFirst(entries: Entries, st: TransportState)
    ensures var i := Position(entries, st);
            && (i < |entries| ==> SameKey(entries[i], st))
            && (forall k | 0 <= k < i :: !SameKey(entries[k], st))
  {
    if entries != [] && !SameKey(entries[0], st) {
      PositionIsFirst(entries[1..], st);
    }
  }

  lemma {:induction false} PositionIs(entries: Entries, st: TransportState, i: nat)
    requires i <= |entries| && (i < |entries| ==> SameKey(entries[i], st))
    requires forall k | 0 <= k < i :: !SameKey(entries[k], st)
    ensures Position(entries, st) == i
  {
    PositionIsFirst(entries, st);
  }

  lemma {:induction false} LookupIsAtPosition(entries: Entries, st: TransportState)
    ensures Lookup(entries, st.nodeId, st.backendId)
            == if Position(entries, st) < |entries| then entries[Position(entries, st)]
                else Fresh(st.nodeId, st.backendId)
  {
    if entries != [] && !SameKey(entries[0], st) {
      LookupIsAtPosition(entries[1..], st);
    }
  }

  /** What is put is what is found, and nothing else is touched. */
  lemma LookupOfPut(entries: Entries, st: TransportState, node: string, backend: string)
    ensures Lookup(PutIn(entries, st), node, backend)
            == if Keyed(st, node, backend) then st else Lookup(entries, node, backend)
  {
    var probe := Fresh(node, backend);
    var after := PutIn(entries, st);
    LookupIsAtPosition(entries, probe);
    LookupIsAtPosition(after, probe);
    PositionIsFirst(entries, st);
    PositionIsFirst(entries, probe);
    if Keyed(st, node, backend) {
      PositionIs(after, probe, Position(entries, st));
    } else {
      PositionIsFirst(after, probe);
      var i := Position(entries, probe);
      if i < |entries| {
        PositionIs(after, probe, i);
      } else {
        PositionIs(after, probe, |after|);
      }
    }
  }

  lemma PutKeepsUniqueness(entries: Entries, st: TransportState)
    requires UniqueRecords(entries)
    ensures UniqueRecords(PutIn(entries, st))
  {
    PositionIsFirst(entries, st);
  }

  /** A list together with what a copy of its header, taken earlier, shows: `shared` says
      whether the two still use the same memory. */
  datatype Copied = Copied(entries: Entries, view: Entries, room: nat, shared: bool)

  function Put1(c: Copied, st: TransportState): (r: Copied) {
    var i := Position(c.entries, st);
    if i < |c.entries| then
      Copied(PutIn(c.entries, st), if c.shared && i < |c.view| then c.view[i := st] else c.view, c.room, c.shared)
    else if c.room > 0 then Copied(PutIn(c.entries, st), c.view, c.room - 1, c.shared)
    else Copied(PutIn(c.entries, st), c.view, |c.entries|, false)
  }

  /** A freshly loaded list with room for some more records, and its copy, after a number of
      puts. */
  function Puts(loaded: Entries, room: nat, sts: seq<TransportState>): (r: Copied) {
    if sts == [] then Copied(loaded, loaded, room, true)
    else Put1(Puts(loaded, room, sts[..|sts| - 1]), sts[|sts| - 1])
  }

  ghost predicate DistinctKeys(sts: seq<TransportState>) {
    forall i, j | 0 <= i < j < |sts| :: !SameKey(sts[i], sts[j])
  }

  lemma {:induction false} PutsArePutAll(loaded: Entries, room: nat, sts: seq<TransportState>)
    ensures Puts(loaded, room, sts).entries == PutAll(loaded, sts)
    ensures |Puts(loaded, room, sts).view| == |loaded| <= |PutAll(loaded, sts)|
  {
    if sts != [] {
      PutsArePutAll(loaded, room, sts[..|sts| - 1]);
    }
  }

  lemma {:induction false} KeysStay(loaded: Entries, sts: seq<TransportState>, st: TransportState)
    ensures |loaded| <= |PutAll(loaded, sts)|
    ensures forall i | 0 <= i < |loaded| :: SameKey(PutAll(loaded, sts)[i], loaded[i])
    ensures Position(loaded, st) < |loaded| ==> Position(PutAll(loaded, sts), st) == Position(loaded, st)
    ensures Position(loaded, st) == |loaded| ==> Position(PutAll(loaded, sts), st) >= |loaded|
  {
    PositionIsFirst(loaded, st);
    if sts != [] {
      var n := |sts| - 1;
      KeysStay(loaded, sts[..n], st);
      var before, after := PutAll(loaded, sts[..n]), PutAll(loaded, sts);
      PositionIsFirst(before, sts[n]);
      assert forall i | 0 <= i < |loaded| :: SameKey(after[i], before[i]);
      PositionIsFirst(after, st);
      PositionIsFirst(before, st);
      if Position(loaded, st) < |loaded| {
        PositionIs(after, st, Position(loaded, st));
      }
    }
  }

  /** A later put does not touch the records of other keys. */
  lemma {:induction false} LookupOfPuts(loaded: Entries, sts: seq<TransportState>, node: string, backend: string)
    requires DistinctKeys(sts)
    ensures (forall k | 0 <= k < |sts| :: !Keyed(sts[k], node, backend)) ==>
              Lookup(PutAll(loaded, sts), node, backend) == Lookup(loaded, node, backend)
    ensures forall k | 0 <= k < |sts| && Keyed(sts[k], node, backend) ::
              Lookup(PutAll(loaded, sts), node, backend) == sts[k]
  {
    if sts != [] {
      var n := |sts| - 1;
      LookupOfPuts(loaded, sts[..n], node, backend);
      LookupOfPut(PutAll(loaded, sts[..n]), sts[n], node, backend);
      if Keyed(sts[n], node, backend) {
        forall k | 0 <= k < n ensures !Keyed(sts[k], node, backend) {
          assert !SameKey(sts[k], sts[n]);
        }
      } else {
        forall k | 0 <= k < |sts| && Keyed(sts[k], node, backend) ensures k < n && sts[..n][k] == sts[k] {}
      }
    }
  }

  lemma {:induction false} PutsKeepUniqueness(loaded: Entries, sts: seq<TransportState>)
    requires UniqueRecords(loaded)
    ensures UniqueRecords(PutAll(loaded, sts))
  {
    if sts != [] {
      PutsKeepUniqueness(loaded, sts[..|sts| - 1]);
      PutKeepsUniqueness(PutAll(loaded, sts[..|sts| - 1]), sts[|sts| - 1]);
    }
  }

  /** How many of the records have a key that the loaded list does not have. */
  function NewKeys(loaded: Entries, sts: seq<TransportState>): (n: nat) {
    if sts == [] then 0
    else NewKeys(loaded, sts[..|sts| - 1]) + (if Position(loaded, sts[|sts| - 1]) < |loaded| then 0 else 1)
  }

  /** The list stays in its memory as long as there is room for every new key. */
  lemma {:induction false} SharedIffRoom(loaded: Entries, room: nat, sts: seq<TransportState>)
    requires DistinctKeys(sts)
    ensures Puts(loaded, room, sts).shared <==> NewKeys(loaded, sts) <= room
    ensures NewKeys(loaded, sts) <= room ==> Puts(loaded, room, sts).room == room - NewKeys(loaded, sts)
  {
    if sts != [] {
      var n := |sts| - 1;
      DistinctInPrefix(sts, n);
      SharedIffRoom(loaded, room, sts[..n]);
      PutsArePutAll(loaded, room, sts[..n]);
      NewIsNew(loaded, sts);
    }
  }

  /** A key that is not put twice is in the list by then if and only if it was loaded. */
  lemma NewIsNew(loaded: Entries, sts: seq<TransportState>)
    requires sts != [] && DistinctKeys(sts)
    ensures var n := |sts| - 1;
            Position(PutAll(loaded, sts[..n]), sts[n]) < |PutAll(loaded, sts[..n])|
            <==> Position(loaded, sts[n]) < |loaded|
  {
    var n := |sts| - 1;
    KeysStay(loaded, sts[..n], sts[n]);
    PositionIsFirst(loaded, sts[n]);
    if Position(loaded, sts[n]) == |loaded| {
      LookupsDiffer(loaded, sts[..n], sts[n]);
    }
  }

  lemma {:induction false} LookupsDiffer(loaded: Entries, sts: seq<TransportState>, st: TransportState)
    requires forall k | 0 <= k < |sts| :: !SameKey(sts[k], st)
    requires Position(loaded, st) == |loaded|
    ensures Position(PutAll(loaded, sts), st) == |PutAll(loaded, sts)|
  {
    if sts != [] {
      var n := |sts| - 1;
      LookupsDiffer(loaded, sts[..n], st);
      var before, after := PutAll(loaded, sts[..n]), PutAll(loaded, sts);
      PositionIsFirst(before, sts[n]);
      PositionIsFirst(before, st);
      PositionIs(after, st, |after|);
    }
  }

  /** The k-th put still goes to the memory the copy shows, over a record the copy has. */
  ghost predicate ShowsThrough(loaded: Entries, room: nat, sts: seq<TransportState>, k: nat)
    requires k < |sts|
  {
    Puts(loaded, room, sts[..k]).shared && Position(loaded, sts[k]) < |loaded|
  }

  lemma ShowsThroughInPrefix(loaded: Entries, room: nat, sts: seq<TransportState>, n: nat, k: nat)
    requires k < n <= |sts|
    ensures ShowsThrough(loaded, room, sts, k) <==> ShowsThrough(loaded, room, sts[..n], k)
  {
    assert sts[..n][..k] == sts[..k] && sts[..n][k] == sts[k];
  }

  lemma DistinctPositions(loaded: Entries, a: TransportState, b: TransportState)
    requires !SameKey(a, b)
    ensures Position(loaded, a) < |loaded| ==> Position(loaded, a) != Position(loaded, b)
  {
    PositionIsFirst(loaded, a);
    PositionIsFirst(loaded, b);
  }

  /** What one more put changes in the copy. */
  lemma LastPutShows(loaded: Entries, room: nat, sts: seq<TransportState>)
    requires sts != []
    ensures var n := |sts| - 1;
            var before, after := Puts(loaded, room, sts[..n]).view, Puts(loaded, room, sts).view;
            |before| == |loaded|
            && after == if ShowsThrough(loaded, room, sts, n) then before[Position(loaded, sts[n]) := sts[n]]
               else before
  {
    var n := |sts| - 1;
    PutsArePutAll(loaded, room, sts[..n]);
    KeysStay(loaded, sts[..n], sts[n]);
  }

  /** A put that shows through is what the copy shows in its place. */
  lemma {:induction false} CopyShowsPut(loaded: Entries, room: nat, sts: seq<TransportState>, k: nat)
    requires DistinctKeys(sts) && k < |sts| && ShowsThrough(loaded, room, sts, k)
    ensures |Puts(loaded, room, sts).view| == |loaded|
            && Puts(loaded, room, sts).view[Position(loaded, sts[k])] == sts[k]
  {
    var n := |sts| - 1;
    LastPutShows(loaded, room, sts);
    if k < n {
      ShowsThroughInPrefix(loaded, room, sts, n, k);
      DistinctInPrefix(sts, n);
      CopyShowsPut(loaded, room, sts[..n], k);
      assert sts[..n][k] == sts[k];
      assert !SameKey(sts[k], sts[n]);
      DistinctPositions(loaded, sts[k], sts[n]);
    }
  }

  lemma DistinctInPrefix(sts: seq<TransportState>, n: nat)
    requires n <= |sts| && DistinctKeys(sts)
    ensures DistinctKeys(sts[..n])
  {
  }

  /** Where no put shows through, the copy shows the loaded record. */
  lemma {:induction false} CopyShowsLoaded(loaded: Entries, room: nat, sts: seq<TransportState>, i: nat)
    requires i < |loaded|
    requires forall k | 0 <= k < |sts| && ShowsThrough(loaded, room, sts, k) :: Position(loaded, sts[k]) != i
    ensures |Puts(loaded, room, sts).view| == |loaded| && Puts(loaded, room, sts).view[i] == loaded[i]
  {
    if sts != [] {
      var n := |sts| - 1;
      LastPutShows(loaded, room, sts);
      forall k | 0 <= k < n && ShowsThrough(loaded, room, sts[..n], k) ensures Position(loaded, sts[..n][k]) != i {
        ShowsThroughInPrefix(loaded, room, sts, n, k);
      }
      CopyShowsLoaded(loaded, room, sts[..n], i);
    }
  }

  /** Saving the copy restores what was loaded if and only if every record that was
      overwritten in place, before the list was moved, was overwritten with itself. */
  lemma CopyRestoresIff(loaded: Entries, room: nat, sts: seq<TransportState>)
    requires DistinctKeys(sts)
    ensures Puts(loaded, room, sts).view == loaded
            <==> forall k | 0 <= k < |sts| && ShowsThrough(loaded, room, sts, k) ::
                sts[k] == loaded[Position(loaded, sts[k])]
  {
    PutsArePutAll(loaded, room, sts);
    var view := Puts(loaded, room, sts).view;
    forall k | 0 <= k < |sts| && ShowsThrough(loaded, room, sts, k) ensures view[Position(loaded, sts[k])] == sts[k] {
      CopyShowsPut(loaded, room, sts, k);
    }
    forall i | 0 <= i < |loaded| && (forall k | 0 <= k < |sts| && ShowsThrough(loaded, room, sts, k) ::
                                     Position(loaded, sts[k]) != i)
      ensures view[i] == loaded[i]
    {
      CopyShowsLoaded(loaded, room, sts, i);
    }
  }

  /** Records whose key no put has are as they were loaded, in the copy as well. */
  lemma CopyKeepsOthers(loaded: Entries, room: nat, sts: seq<TransportState>, node: string, backend: string)
    requires forall k | 0 <= k < |sts| :: !Keyed(sts[k], node, backend)
    ensures Lookup(Puts(loaded, room, sts).view, node, backend) == Lookup(loaded, node, backend)
    ensures |Puts(loaded, room, sts).view| == |loaded|
  {
    PutsArePutAll(loaded, room, sts);
    var view, probe := Puts(loaded, room, sts).view, Fresh(node, backend);
    LookupIsAtPosition(view, probe);
    LookupIsAtPosition(loaded, probe);
    PositionIsFirst(loaded, probe);
    CopyKeepsKeys(loaded, room, sts);
    PositionIs(view, probe, Position(loaded, probe));
    if Position(loaded, probe) < |loaded| {
      forall k | 0 <= k < |sts| && ShowsThrough(loaded, room, sts, k)
        ensures Position(loaded, sts[k]) != Position(loaded, probe)
      {
        PositionIsFirst(loaded, sts[k]);
      }
      CopyShowsLoaded(loaded, room, sts, Position(loaded, probe));
    }
  }

  lemma {:induction false} CopyKeepsKeys(loaded: Entries, room: nat, sts: seq<TransportState>)
    ensures |Puts(loaded, room, sts).view| == |loaded|
    ensures forall i | 0 <= i < |loaded| :: SameKey(Puts(loaded, room, sts).view[i], loaded[i])
  {
    if sts != [] {
      var n := |sts| - 1;
      CopyKeepsKeys(loaded, room, sts[..n]);
      PutsArePutAll(loaded, room, sts[..n]);
      KeysStay(loaded, sts[..n], sts[n]);
      PositionIsFirst(PutAll(loaded, sts[..n]), sts[n]);
    }
  }

  class File {
    var data: array<TransportState>
    var len: nat

    constructor (entries: Entries, capacity: nat)
      ensures Valid() && fresh(data) && Contents() == entries && Room() == capacity
    {
      var n := |entries| + capacity;
      var blank := Fresh("", "");
      var a := new TransportState[n](i => if 0 <= i < |entries| then entries[i] else blank);
      data, len := a, |entries|;
    }

    ghost predicate Valid()
      reads this
    {
      len <= data.Length
    }

    ghost function Contents(): (r: Entries)
      requires Valid()
      reads this, data
    {
      data[..len]
    }

    /** How many records can be appended before the list is moved. */
    ghost function Room(): (r: nat)
      requires Valid()
      reads this
    {
      data.Length - len
    }

    method Get(node: string, backend: string) returns (st: TransportState)
      requires Valid()
      ensures st == Lookup(Contents(), node, backend)
    {
      for i := 0 to len
        invariant Lookup(Contents(), node, backend) == Lookup(data[i..len], node, backend)
      {
        assert data[i..len][0] == data[i] && data[i..len][1..] == data[i + 1..len];
        if Keyed(data[i], node, backend) {
          return data[i];
        }
      }
      st := Fresh(node, backend);
    }

    /** Puts a record: over the one with its key, in place; or at the end, in place if there
        is room and otherwise in a larger copy. */
    method Put(st: TransportState)
      requires Valid()
      modifies this, data
      ensures Valid() && Contents() == PutIn(old(Contents()), st)
      ensures data == old(data) || fresh(data)
      ensures data == old(data) <==> Position(old(Contents()), st) < old(len) || old(Room()) > 0
      ensures fresh(data) ==> old(data)[..] == old(data[..])
      ensures Room() == if Position(old(Contents()), st) < old(len) then old(Room())
                        else if old(Room()) > 0 then old(Room()) - 1 else old(len)
      ensures data == old(data) ==> data.Length == old(data.Length)
      ensures forall k | 0 <= k < old(len) && !(data == old(data) && k == Position(old(Contents()), st)) ::
                old(data)[k] == old(data[k])
    {
      ghost var was := Contents();
      PositionIsFirst(was, st);
      for i := 0 to len
        invariant Valid() && data == old(data) && len == old(len) && Contents() == was
        invariant data[..] == old(data[..])
        invariant forall k | 0 <= k < i :: !SameKey(was[k], st)
      {
        assert data[i] == was[i];
        if SameKey(data[i], st) {
          PositionIs(was, st, i);
          data[i] := st;
          assert Contents() == was[i := st];
          return;
        }
      }
      PositionIs(was, st, len);
      if len == data.Length {
        Grow();
      }
      data[len] := st;
      len := len + 1;
      assert Contents() == was + [st];
    }

    method Grow()
      requires Valid()
      modifies this
      ensures Valid() && fresh(data) && len == old(len) && Contents() == old(Contents()) && data.Length == 2 * len + 1
    {
      var old' := data;
      var blank := Fresh("", "");
      var a := new TransportState[2 * len + 1](i => blank);
      for i := 0 to len
        invariant data == old' && len == old(len) && fresh(a) && a.Length == 2 * len + 1
        invariant a[..i] == old'[..i]
        invariant old'[..] == old(data[..])
      {
        a[i] := old'[i];
      }
      data := a;
    }
  }
}
