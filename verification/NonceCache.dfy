/** The cache of nonces: a map and a list that are updated together, against a recency-ordered
    sequence of bounded length. */
module NonceCache {
  import opened Base

  // ------------------------------------------------------------ specification

  datatype Item = Item(id: string, nonce: bytes)

  /** Most recently used first. */
  type Recency = seq<Item>

  function Lookup(r: Recency, id: string): Option<bytes> {
    if r == [] then None else if r[0].id == id then Some(r[0].nonce) else Lookup(r[1..], id)
  }

  function Without(r: Recency, id: string): Recency {
    if r == [] then [] else if r[0].id == id then r[1..] else [r[0]] + Without(r[1..], id)
  }

  function Evict(r: Recency, capacity: int): Recency {
    if |r| > capacity && r != [] then r[..|r| - 1] else r
  }

  function Put(r: Recency, capacity: int, id: string, nonce: bytes): Recency {
    if Lookup(r, id).Some? then [Item(id, nonce)] + Without(r, id) else Evict([Item(id, nonce)] + r, capacity)
  }

  function Touch(r: Recency, id: string): Recency {
    match Lookup(r, id)
    case None => r
    case Some(nonce) => [Item(id, nonce)] + Without(r, id)
  }

  ghost predicate DistinctIds(r: Recency) {
    forall i, j | 0 <= i < j < |r| :: r[i].id != r[j].id
  }

  lemma {:induction false} LookupAt(r: Recency, i: nat)
    requires DistinctIds(r) && i < |r|
    ensures Lookup(r, r[i].id) == Some(r[i].nonce)
    ensures Without(r, r[i].id) == r[..i] + r[i + 1..]
  {
    if i > 0 {
      LookupAt(r[1..], i - 1);
      assert r[1..][i - 1] == r[i];
      assert [r[0]] + r[1..][..i - 1] == r[..i] && r[1..][i..] == r[i + 1..];
    }
  }

  lemma {:induction false} LookupMissing(r: Recency, id: string)
    ensures Lookup(r, id) == None <==> forall i | 0 <= i < |r| :: r[i].id != id
    ensures Lookup(r, id) == None ==> Without(r, id) == r
  {
    if r != [] {
      LookupMissing(r[1..], id);
      assert forall i | 0 < i < |r| :: r[i] == r[1..][i - 1];
    }
  }

  lemma {:induction false} WhereIs(r: Recency, id: string) returns (i: nat)
    requires Lookup(r, id).Some?
    ensures i < |r| && r[i].id == id
  {
    LookupMissing(r, id);
    i :| 0 <= i < |r| && r[i].id == id;
  }

  // ---------------------------------------------------------------- histories

  datatype Op = OpPut(id: string, nonce: bytes) | OpGet(id: string) | OpDelete(id: string)

  function Step(r: Recency, capacity: int, op: Op): Recency {
    match op
    case OpPut(id, nonce) => Put(r, capacity, id, nonce)
    case OpGet(id) => Touch(r, id)
    case OpDelete(id) => Without(r, id)
  }

  function Run(capacity: int, ops: seq<Op>): Recency {
    if ops == [] then [] else Step(Run(capacity, ops[..|ops| - 1]), capacity, ops[|ops| - 1])
  }

  /** One more than the position of the last Put or Get of `id`; 0 if there is none. */
  function LastUse(ops: seq<Op>, id: string): nat {
    if ops == [] then 0
    else if ops[|ops| - 1].id == id && !ops[|ops| - 1].OpDelete? then |ops|
    else LastUse(ops[..|ops| - 1], id)
  }

  /** The nonce of the last Put of `id`, unless it was deleted afterwards. */
  function LastPut(ops: seq<Op>, id: string): Option<bytes> {
    if ops == [] then None
    else
      var op := ops[|ops| - 1];
      if op.id == id && op.OpPut? then Some(op.nonce)
      else if op.id == id && op.OpDelete? then None
      else LastPut(ops[..|ops| - 1], id)
  }

  lemma {:induction false} LastUseInRange(ops: seq<Op>, id: string)
    ensures LastUse(ops, id) <= |ops|
  {
    if ops != [] {
      LastUseInRange(ops[..|ops| - 1], id);
    }
  }

  /** What the history says of every entry, and in which order. */
  ghost predicate FitsHistory(r: Recency, capacity: int, ops: seq<Op>) {
    Ordered(r, ops) && |r| <= if capacity > 0 then capacity else 0
  }

  ghost predicate Ordered(r: Recency, ops: seq<Op>) {
    && DistinctIds(r)
    && (forall i | 0 <= i < |r| :: LastPut(ops, r[i].id) == Some(r[i].nonce))
    && (forall i, j | 0 <= i < j < |r| :: LastUse(ops, r[i].id) > LastUse(ops, r[j].id))
  }

  lemma {:induction false} HistoryGrows(ops: seq<Op>, op: Op, id: string)
    ensures LastUse(ops + [op], id) == (if op.id == id && !op.OpDelete? then |ops| + 1 else LastUse(ops, id))
    ensures LastPut(ops + [op], id) ==
              if op.id == id && op.OpPut? then Some(op.nonce)
              else if op.id == id && op.OpDelete? then None
              else LastPut(ops, id)
  {
    var all := ops + [op];
    assert all[..|all| - 1] == ops && all[|all| - 1] == op;
  }

  /** Removing an id removes one entry at most, and keeps the order. */
  lemma {:induction false} WithoutKeepsOrder(r: Recency, id: string) returns (k: nat)
    requires DistinctIds(r)
    ensures if Lookup(r, id).Some? then k < |r| else k == |r|
    ensures var keep := Without(r, id);
            && |keep| == (if Lookup(r, id).Some? then |r| - 1 else |r|)
            && (forall i | 0 <= i < |keep| :: keep[i].id != id && keep[i] == r[if i < k then i else i + 1])
  {
    k := |r|;
    LookupMissing(r, id);
    if Lookup(r, id).Some? {
      k := WhereIs(r, id);
      LookupAt(r, k);
    }
  }

  lemma {:induction false} OthersFit(r: Recency, capacity: int, ops: seq<Op>, op: Op, keep: Recency)
    requires FitsHistory(r, capacity, ops) && keep == Without(r, op.id)
    ensures forall i | 0 <= i < |keep| :: keep[i].id != op.id
    ensures FitsHistory(keep, capacity, ops + [op])
    ensures |keep| == if Lookup(r, op.id).Some? then |r| - 1 else |r|
  {
    var k := WithoutKeepsOrder(r, op.id);
    forall i | 0 <= i < |keep|
      ensures LastPut(ops + [op], keep[i].id) == Some(keep[i].nonce)
    {
      HistoryGrows(ops, op, keep[i].id);
      assert keep[i] == r[if i < k then i else i + 1];
    }
    forall i, j | 0 <= i < j < |keep|
      ensures keep[i].id != keep[j].id && LastUse(ops + [op], keep[i].id) > LastUse(ops + [op], keep[j].id)
    {
      HistoryGrows(ops, op, keep[i].id);
      HistoryGrows(ops, op, keep[j].id);
      assert keep[i] == r[if i < k then i else i + 1] && keep[j] == r[if j < k then j else j + 1];
    }
  }

  lemma {:induction false} FrontOrdered(keep: Recency, ops: seq<Op>, op: Op, nonce: bytes)
    requires Ordered(keep, ops + [op]) && !op.OpDelete? && LastPut(ops + [op], op.id) == Some(nonce)
    requires forall i | 0 <= i < |keep| :: keep[i].id != op.id
    ensures Ordered([Item(op.id, nonce)] + keep, ops + [op])
  {
    var r := [Item(op.id, nonce)] + keep;
    HistoryGrows(ops, op, op.id);
    forall i | 0 <= i < |keep| ensures LastUse(ops + [op], keep[i].id) <= |ops| {
      HistoryGrows(ops, op, keep[i].id);
      LastUseInRange(ops, keep[i].id);
    }
    forall i, j | 0 <= i < j < |r|
      ensures r[i].id != r[j].id && LastUse(ops + [op], r[i].id) > LastUse(ops + [op], r[j].id)
    {
      assert r[j] == keep[j - 1];
      if i > 0 {
        assert r[i] == keep[i - 1];
      }
    }
  }

  lemma {:induction false} EvictOrdered(r: Recency, capacity: int, ops: seq<Op>)
    requires Ordered(r, ops)
    ensures Ordered(Evict(r, capacity), ops)
  {}

  /** After any history the cache holds at most `capacity` entries, one per id, each with the
      nonce last put under its id and not deleted since, most recently used first. */
  lemma {:induction false} RunFitsHistory(capacity: int, ops: seq<Op>)
    ensures FitsHistory(Run(capacity, ops), capacity, ops)
  {
    if ops != [] {
      var n := |ops| - 1;
      RunFitsHistory(capacity, ops[..n]);
      assert ops == ops[..n] + [ops[n]];
      StepFitsHistory(Run(capacity, ops[..n]), capacity, ops[..n], ops[n]);
    }
  }

  lemma {:induction false} StepFitsHistory(r: Recency, capacity: int, ops: seq<Op>, op: Op)
    requires FitsHistory(r, capacity, ops)
    ensures FitsHistory(Step(r, capacity, op), capacity, ops + [op])
  {
    var keep := Without(r, op.id);
    OthersFit(r, capacity, ops, op, keep);
    LookupMissing(r, op.id);
    HistoryGrows(ops, op, op.id);
    if !op.OpDelete? && Lookup(r, op.id).Some? {
      var k := WhereIs(r, op.id);
      LookupAt(r, k);
    }
    if op.OpPut? {
      FrontOrdered(keep, ops, op, op.nonce);
      EvictOrdered([Item(op.id, op.nonce)] + keep, capacity, ops + [op]);
    } else if op.OpGet? && Lookup(r, op.id).Some? {
      FrontOrdered(keep, ops, op, Lookup(r, op.id).value);
    }
  }

  /** Get answers with the nonce last put, if it answers at all. */
  lemma {:induction false} GetIsLastPut(capacity: int, ops: seq<Op>, id: string)
    ensures Lookup(Run(capacity, ops), id).Some? ==> Lookup(Run(capacity, ops), id) == LastPut(ops, id)
  {
    var r := Run(capacity, ops);
    RunFitsHistory(capacity, ops);
    if Lookup(r, id).Some? {
      var i := WhereIs(r, id);
      LookupAt(r, i);
    }
  }

  /** An id leaves the cache in just two ways: it is deleted, or a new id is put into a full
      cache while it is the least recently used of all ids there. In particular a Put is
      followed by an answer until one of the two happens. */
  lemma {:induction false} OnlyLeastRecentLeaves(capacity: int, ops: seq<Op>, op: Op, id: string)
    requires capacity > 0
    ensures var r, r1 := Run(capacity, ops), Run(capacity, ops + [op]);
            && (op.OpPut? ==> Lookup(r1, op.id) == Some(op.nonce))
            && (Lookup(r, id).Some? && Lookup(r1, id).None? <==>
                  Lookup(r, id).Some? &&
                  (op == OpDelete(id)
                   || (op.OpPut? && Lookup(r, op.id).None? && |r| == capacity
                       && forall other | Lookup(r, other).Some? && other != id ::
                            LastUse(ops, other) > LastUse(ops, id))))
  {
    var r := Run(capacity, ops);
    var all := ops + [op];
    assert all[..|all| - 1] == ops && all[|all| - 1] == op;
    RunFitsHistory(capacity, ops);
    RunFitsHistory(capacity, all);
    StepLeaves(r, capacity, ops, op, id);
  }

  lemma {:induction false} StillThere(r: Recency, id: string, other: string)
    requires DistinctIds(r)
    ensures Lookup(Without(r, other), id) == if id == other then None else Lookup(r, id)
  {
    if r != [] {
      if r[0].id == other {
        LookupMissing(r[1..], other);
      } else {
        StillThere(r[1..], id, other);
        assert ([r[0]] + Without(r[1..], other))[1..] == Without(r[1..], other);
      }
    }
  }

  lemma {:induction false} StepLeaves(r: Recency, capacity: int, ops: seq<Op>, op: Op, id: string)
    requires FitsHistory(r, capacity, ops) && capacity > 0
    ensures var r1 := Step(r, capacity, op);
            && (op.OpPut? ==> Lookup(r1, op.id) == Some(op.nonce))
            && (Lookup(r, id).Some? && Lookup(r1, id).None? <==>
                  Lookup(r, id).Some? &&
                  (op == OpDelete(id)
                   || (op.OpPut? && Lookup(r, op.id).None? && |r| == capacity
                       && forall other | Lookup(r, other).Some? && other != id ::
                            LastUse(ops, other) > LastUse(ops, id))))
  {
    StillThere(r, id, op.id);
    if op.OpPut? && Lookup(r, op.id).None? && Lookup(r, id).Some? {
      PutLeaves(r, capacity, ops, op, id);
    }
  }

  lemma {:induction false} PutLeaves(r: Recency, capacity: int, ops: seq<Op>, op: Op, id: string)
    requires FitsHistory(r, capacity, ops) && capacity > 0 && op.OpPut? && Lookup(r, op.id).None? && Lookup(r, id).Some?
    ensures Lookup(Step(r, capacity, op), id).None? <==>
              && |r| == capacity
              && forall other | Lookup(r, other).Some? && other != id :: LastUse(ops, other) > LastUse(ops, id)
  {
    var i := WhereIs(r, id);
    var front := Item(op.id, op.nonce);
    LookupMissing(r, op.id);
    if |r| == capacity {
      var last := |r| - 1;
      assert Evict([front] + r, capacity) == [front] + r[..last];
      FrontLookup(front, r[..last], id);
      LastIsOldest(r, ops, i);
    } else {
      FrontLookup(front, r, id);
    }
  }

  lemma {:induction false} FrontLookup(front: Item, r: Recency, id: string)
    requires id != front.id
    ensures Lookup([front] + r, id) == Lookup(r, id)
  {
    assert ([front] + r)[1..] == r;
  }

  lemma {:induction false} LastIsOldest(r: Recency, ops: seq<Op>, i: nat)
    requires Ordered(r, ops) && i < |r|
    ensures i == |r| - 1 <==>
              forall other | Lookup(r, other).Some? && other != r[i].id :: LastUse(ops, other) > LastUse(ops, r[i].id)
    ensures i < |r| - 1 <==> Lookup(r[..|r| - 1], r[i].id).Some?
  {
    LookupMissing(r[..|r| - 1], r[i].id);
    if i == |r| - 1 {
      forall other | Lookup(r, other).Some? && other != r[i].id ensures LastUse(ops, other) > LastUse(ops, r[i].id) {
        var j := WhereIs(r, other);
      }
    } else {
      LookupAt(r, |r| - 1);
      assert r[..|r| - 1][i].id == r[i].id;
    }
  }

  // ----------------------------------------------------------------- the cache

  class Entry {
    const clientID: string
    var nonce: array<byte>

    constructor (clientID: string, nonce: array<byte>)
      ensures this.clientID == clientID && this.nonce == nonce
    {
      this.clientID := clientID;
      this.nonce := nonce;
    }
  }

  /** The map leads to exactly the elements of the list, whose ids are those of `view`. */
  ghost predicate Linked(cache: map<string, Entry>, lru: seq<Entry>, view: Recency) {
    && |lru| == |view| && DistinctIds(view)
    && (forall i | 0 <= i < |view| :: view[i].id in cache && cache[view[i].id] == lru[i])
    && (forall k | k in cache :: Lookup(view, k).Some?)
  }

  function Moved<T>(s: seq<T>, k: nat): (m: seq<T>)
    requires k < |s|
    ensures |m| == |s| && m[0] == s[k] && forall i | 0 < i < |s| :: m[i] == s[if i <= k then i - 1 else i]
  {
    [s[k]] + s[..k] + s[k + 1..]
  }

  lemma {:induction false} MoveKeepsLinks(cache: map<string, Entry>, lru: seq<Entry>, view: Recency, k: nat)
    requires Linked(cache, lru, view) && k < |view|
    ensures Linked(cache, Moved(lru, k), Moved(view, k))
    ensures Moved(view, k) == Touch(view, view[k].id)
  {
    LookupAt(view, k);
    var view1 := Moved(view, k);
    assert view1 == [view[k]] + Without(view, view[k].id);
    forall id | id in cache ensures Lookup(view1, id).Some? {
      var j := WhereIs(view, id);
      LookupMissing(view1, id);
      assert view1[if j == k then 0 else if j < k then j + 1 else j].id == id;
    }
  }

  lemma {:induction false} RenewKeepsLinks(cache: map<string, Entry>, lru: seq<Entry>, view: Recency, item: Item)
    requires Linked(cache, lru, view) && view != [] && view[0].id == item.id
    ensures Linked(cache, lru, [item] + view[1..])
  {
    var view1 := [item] + view[1..];
    assert forall i | 0 <= i < |view| :: view1[i].id == view[i].id;
    forall id | id in cache ensures Lookup(view1, id).Some? {
      LookupMissing(view, id);
      LookupMissing(view1, id);
    }
  }

  function Dropped<T>(s: seq<T>, k: nat): (d: seq<T>)
    requires k < |s|
    ensures |d| == |s| - 1 && forall i | 0 <= i < |d| :: d[i] == s[if i < k then i else i + 1]
  {
    s[..k] + s[k + 1..]
  }

  lemma {:induction false} DropKeepsLinks(cache: map<string, Entry>, lru: seq<Entry>, view: Recency, k: nat)
    requires Linked(cache, lru, view) && k < |view|
    ensures Linked(cache - {view[k].id}, Dropped(lru, k), Dropped(view, k))
    ensures Dropped(view, k) == Without(view, view[k].id)
  {
    LookupAt(view, k);
    forall id | id in cache && id != view[k].id ensures Lookup(Dropped(view, k), id).Some? {
      StillThere(view, id, view[k].id);
    }
  }

  lemma {:induction false} PushKeepsLinks(cache: map<string, Entry>, lru: seq<Entry>, view: Recency, entry: Entry,
                                          item: Item)
    requires Linked(cache, lru, view) && item.id !in cache
    ensures Linked(cache[item.id := entry], [entry] + lru, [item] + view)
  {
    var view1 := [item] + view;
    assert view1[1..] == view;
    assert forall i | 0 <= i < |view| :: view1[i + 1] == view[i];
  }

  lemma {:induction false} LinkedLookup(cache: map<string, Entry>, lru: seq<Entry>, view: Recency, id: string)
    requires Linked(cache, lru, view)
    ensures id in cache <==> Lookup(view, id).Some?
  {
    if Lookup(view, id).Some? {
      var k := WhereIs(view, id);
    }
  }

  class Cache {
    const capacity: int
    var cache: map<string, Entry>
    var lru: seq<Entry>
    /** What the cache holds, most recently used first. */
    ghost var view: Recency
    ghost var Repr: set<object>

    ghost predicate Cell(e: Entry, item: Item)
      reads this, Repr
    {
      e in Repr && e.nonce in Repr && e.clientID == item.id && e.nonce[..] == item.nonce
    }

    ghost predicate Valid()
      reads this, Repr
    {
      this in Repr && Linked(cache, lru, view) && forall i | 0 <= i < |lru| :: Cell(lru[i], view[i])
    }

    constructor (capacity: int)
      ensures Valid() && fresh(Repr) && this.capacity == capacity && view == []
    {
      this.capacity := capacity;
      cache := map[];
      lru := [];
      view := [];
      Repr := {this};
    }

    method MoveAt(k: nat)
      requires Valid() && k < |lru|
      modifies this`lru, this`view
      ensures Valid() && view == Moved(old(view), k) && lru == Moved(old(lru), k)
    {
      MoveKeepsLinks(cache, lru, view, k);
      forall i | 0 <= i < |lru| ensures Cell(Moved(lru, k)[i], Moved(view, k)[i]) {
        var m := if i == 0 then k else if i <= k then i - 1 else i;
        assert Cell(lru[m], view[m]);
      }
      view := Moved(view, k);
      lru := Moved(lru, k);
    }

    /** list.MoveToFront */
    method MoveToFront(elem: Entry)
      requires Valid() && elem in lru
      modifies this`lru, this`view
      ensures Valid() && view == Touch(old(view), elem.clientID) && lru != [] && lru[0] == elem
    {
      var k :| 0 <= k < |lru| && lru[k] == elem;
      assert Cell(lru[k], view[k]);
      MoveKeepsLinks(cache, lru, view, k);
      MoveAt(k);
    }

    /** list.Remove, and the key's removal from the map. */
    method Drop(k: nat)
      requires Valid() && k < |lru|
      modifies this`lru, this`cache, this`view
      ensures Valid() && view == Without(old(view), old(view)[k].id)
      ensures k == |old(view)| - 1 ==> view == old(view)[..k]
    {
      DropKeepsLinks(cache, lru, view, k);
      assert Cell(lru[k], view[k]);
      cache := cache - {lru[k].clientID};
      forall i | 0 <= i < |lru| - 1 ensures Cell(Dropped(lru, k)[i], Dropped(view, k)[i]) {
        assert Cell(lru[if i < k then i else i + 1], view[if i < k then i else i + 1]);
      }
      lru := Dropped(lru, k);
      view := Dropped(view, k);
    }
  
    /** The element of an id, if there is one. */
    method Find(clientID: string) returns (elem: Entry?)
      requires Valid()
      ensures elem == null <==> Lookup(view, clientID).None?
      ensures elem != null ==> elem in lru && Cell(elem, Item(clientID, Lookup(view, clientID).value))
    {
      LinkedLookup(cache, lru, view, clientID);
      if clientID !in cache {
        return null;
      }
      ghost var k := WhereIs(view, clientID);
      LookupAt(view, k);
      assert Cell(lru[k], view[k]);
      elem := cache[clientID];
    }

    method SetFront(elem: Entry, nonceCopy: array<byte>)
      requires Valid() && nonceCopy !in Repr && lru != [] && lru[0] == elem
      modifies this`view, this`Repr, elem`nonce
      ensures Valid() && Repr == old(Repr) + {nonceCopy} && lru == old(lru)
      ensures view == [Item(elem.clientID, nonceCopy[..])] + old(view)[1..]
    {
      ghost var item := Item(elem.clientID, nonceCopy[..]);
      assert forall i | 0 <= i < |lru| :: Cell(lru[i], view[i]) && lru[i].clientID == view[i].id;
      assert forall i | 0 < i < |lru| :: lru[i] != elem;
      RenewKeepsLinks(cache, lru, view, item);
      elem.nonce := nonceCopy;
      Repr := Repr + {nonceCopy};
      view := [item] + view[1..];
    }

    /** A known id gets the new nonce and moves to the front. */
    method Renew(elem: Entry, nonceCopy: array<byte>)
      requires Valid() && elem in lru && nonceCopy !in Repr
      modifies this`lru, this`view, this`Repr, elem`nonce
      ensures Valid() && Repr == old(Repr) + {nonceCopy}
      ensures view == [Item(elem.clientID, nonceCopy[..])] + Without(old(view), elem.clientID)
    {
      var k :| 0 <= k < |lru| && lru[k] == elem;
      LookupAt(view, k);
      assert Cell(lru[k], view[k]);
      MoveToFront(elem);
      SetFront(elem, nonceCopy);
    }

    /** list.PushFront of a new element. */
    method Push(clientID: string, nonceCopy: array<byte>)
      requires Valid() && clientID !in cache && nonceCopy !in Repr
      modifies this`lru, this`cache, this`view, this`Repr
      ensures Valid() && fresh(Repr - old(Repr) - {nonceCopy}) && nonceCopy in Repr
      ensures view == [Item(clientID, nonceCopy[..])] + old(view)
    {
      var entry := new Entry(clientID, nonceCopy);
      PushKeepsLinks(cache, lru, view, entry, Item(clientID, nonceCopy[..]));
      cache := cache[clientID := entry];
      lru := [entry] + lru;
      view := [Item(clientID, nonceCopy[..])] + view;
      Repr := Repr + {entry, nonceCopy};
    }

    /** An unknown id is added at the front, and the oldest element dropped if that is too many. */
    method Insert(clientID: string, nonceCopy: array<byte>)
      requires Valid() && nonceCopy !in Repr && Lookup(view, clientID).None?
      modifies this`lru, this`cache, this`view, this`Repr
      ensures Valid() && fresh(Repr - old(Repr) - {nonceCopy})
      ensures view == Evict([Item(clientID, nonceCopy[..])] + old(view), capacity)
    {
      LinkedLookup(cache, lru, view, clientID);
      Push(clientID, nonceCopy);
      if |lru| > capacity {
        Drop(|lru| - 1);
      }
    }

    method PutNonce(clientID: string, nonce: array<byte>)
      requires Valid() && nonce !in Repr
      modifies Repr
      ensures Valid() && fresh(Repr - old(Repr)) && nonce !in Repr
      ensures view == Put(old(view), capacity, clientID, nonce[..])
    {
      var nonceCopy := Copy(nonce);
      var elem := Find(clientID);
      if elem != null {
        Renew(elem, nonceCopy);
      } else {
        Insert(clientID, nonceCopy);
      }
    }

    /** The answer is the caller's own copy. */
    method GetNonce(clientID: string) returns (nonce: array<byte>, found: bool)
      requires Valid()
      modifies this`lru, this`view
      ensures Valid() && fresh(nonce) && nonce !in Repr
      ensures view == Touch(old(view), clientID)
      ensures found == Lookup(old(view), clientID).Some? && (found ==> Lookup(old(view), clientID) == Some(nonce[..]))
    {
      var elem := Find(clientID);
      if elem == null {
        nonce := new byte[0];
        return nonce, false;
      }
      MoveToFront(elem);
      nonce := Copy(elem.nonce);
      found := true;
    }

    method Delete(clientID: string)
      requires Valid()
      modifies this`lru, this`cache, this`view
      ensures Valid() && view == Without(old(view), clientID)
    {
      LookupMissing(view, clientID);
      var elem := Find(clientID);
      if elem != null {
        var k :| 0 <= k < |lru| && lru[k] == elem;
        assert Cell(lru[k], view[k]);
        Drop(k);
      }
    }
  }

  /** Defensive copy of a buffer. */
  method Copy(a: array<byte>) returns (b: array<byte>)
    ensures fresh(b) && b[..] == a[..]
  {
    b := new byte[a.Length];
    forall i | 0 <= i < a.Length {
      b[i] := a[i];
    }
  }

  /** A caller that goes on writing into the buffer it handed in, and into the buffer it got
      back, changes nothing in the cache. */
  method WritesDoNotReach(c: Cache, id: string, buffer: array<byte>, x: byte) returns (nonce: array<byte>)
    requires c.Valid() && buffer !in c.Repr && buffer.Length > 0 && c.capacity > 0
    modifies c.Repr, buffer
    ensures c.Valid() && nonce[..] == old(buffer[..])
  {
    ghost var before := c.view;
    PutAnswers(before, c.capacity, id, buffer[..]);
    c.PutNonce(id, buffer);
    buffer[0] := x;
    var first, ok := c.GetNonce(id);
    if first.Length > 0 {
      first[0] := x;
    }
    nonce, ok := c.GetNonce(id);
  }

  lemma {:induction false} PutAnswers(r: Recency, capacity: int, id: string, nonce: bytes)
    requires capacity > 0
    ensures Lookup(Put(r, capacity, id, nonce), id) == Some(nonce)
    ensures Lookup(Touch(Put(r, capacity, id, nonce), id), id) == Some(nonce)
  {}
}
