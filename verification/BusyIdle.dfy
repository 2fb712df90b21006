/**
 The busy/idle bookkeeping of ConnectionManager: `conns_`, `idleIterator_`,
 `drainIterator_`, `idleConnections_` and each connection's activation state.
 The operations follow the code; the lemmas show that together they implement
 two queues, and that the counter, the cursor and the activation states never
 disagree.
 */
module BusyIdle {
  import opened ConnectionList

  datatype Conns = Conns(
    list: seq<ConnId>,                 // conns_
    idleIt: Cursor,                    // idleIterator_
    drainIt: Cursor,                   // drainIterator_
    idleCount: int,                    // idleConnections_
    activation: map<ConnId, Activation>,
    since: map<ConnId, nat>,           // when a connection was last added, activated or deactivated
    clock: nat                         // counts those events
  )

  const EMPTY: Conns := Conns([], End, End, 0, map[], map[], 0)

  /** A connection no manager has seen is idle, as its member initialiser says. */
  function ActivationOf(l: Conns, c: ConnId): (a: Activation) {
    if c in l.activation then l.activation[c] else Idle
  }

  function Stamp(l: Conns, c: ConnId): (r: Conns) {
    l.(since := l.since[c := l.clock], clock := l.clock + 1)
  }

  // ---------------------------------------------------------------------------
  // The operations
  // ---------------------------------------------------------------------------

  /** `addConnection` of a connection no manager holds. */
  function Add(l: Conns, c: ConnId): (r: Conns)
    requires c !in l.list
  {
    Stamp(l, c).(list := [c] + l.list, activation := l.activation[c := Active])
  }

  /** `removeConnection`; a connection that is not managed here is left alone. */
  function Remove(l: Conns, c: ConnId): (r: Conns) {
    if c !in l.list then l else
    l.(list := Erase(l.list, c),
       drainIt := if l.drainIt == At(c) then Next(l.list, c) else l.drainIt,
       idleIt := if l.idleIt == At(c) then Next(l.list, c) else l.idleIt,
       idleCount := if ActivationOf(l, c) == Idle then l.idleCount - 1 else l.idleCount)
  }

  /** `onActivated`: the drain cursor is not consulted and stays with its node. */
  function Activate(l: Conns, c: ConnId): (r: Conns)
    requires c in l.list
  {
    Stamp(l, c).(
      list := [c] + Erase(l.list, c),
      idleIt := if l.idleIt == At(c) then Next(l.list, c) else l.idleIt,
      idleCount := if ActivationOf(l, c) == Idle then l.idleCount - 1 else l.idleCount,
      activation := l.activation[c := Active])
  }

  /** `onDeactivated`: a cursor at the end of the list is pulled back onto the node just appended. */
  function Deactivate(l: Conns, c: ConnId): (r: Conns)
    requires c in l.list && ActivationOf(l, c) == Active
  {
    var moved := if l.drainIt == At(c) then Next(l.list, c) else l.drainIt;
    Stamp(l, c).(
      list := Erase(l.list, c) + [c],
      drainIt := if l.drainIt == At(c) && moved == End then At(c) else moved,
      idleIt := if l.idleIt == End then At(c) else l.idleIt,
      idleCount := l.idleCount + 1,
      activation := l.activation[c := Idle])
  }

  /** `dropConnections(numToDrop)`: from the front, whatever their state. */
  function DropFront(l: Conns, n: nat): (r: Conns)
    decreases n
  {
    if n == 0 || l.list == [] then l else DropFront(Remove(l, l.list[0]), n - 1)
  }

  /** One turn of `dropIdleConnections`: the cursor moves on, then the dropped connection removes itself. */
  function DropIdleHead(l: Conns): (r: Conns)
    requires l.idleIt != End
  {
    Remove(l.(idleIt := Next(l.list, l.idleIt.id)), l.idleIt.id)
  }

  /** The loop of `dropIdleConnections`. */
  function ShedIdle(l: Conns, num: nat, threshold: nat, idleTime: ConnId -> nat): (r: Conns)
    decreases num
  {
    if num == 0 || l.idleIt == End || idleTime(l.idleIt.id) <= threshold then l
    else ShedIdle(DropIdleHead(l), num - 1, threshold, idleTime)
  }

  /** `dropAllConnections`: both cursors are reset, the idle counter is not. */
  function DropAll(l: Conns): (r: Conns) {
    l.(list := [], idleIt := End, drainIt := End)
  }

  /** `addConnection` of a connection this manager already holds: only its state is touched. */
  function ReAdd(l: Conns, c: ConnId): (r: Conns) {
    l.(activation := l.activation[c := Active])
  }

  // ---------------------------------------------------------------------------
  // The two queues
  // ---------------------------------------------------------------------------

  /** [begin, idleIterator_) */
  function Busy(l: Conns): (s: seq<ConnId>) {
    Before(l.list, l.idleIt)
  }

  /** [idleIterator_, end) */
  function IdlePart(l: Conns): (s: seq<ConnId>) {
    From(l.list, l.idleIt)
  }

  predicate WellLinked(l: Conns) {
    NoDups(l.list) && Valid(l.list, l.idleIt) && Valid(l.list, l.drainIt)
  }

  predicate AllIn(l: Conns, s: seq<ConnId>, a: Activation) {
    forall c | c in s :: ActivationOf(l, c) == a
  }

  predicate StatesAgree(l: Conns) {
    AllIn(l, Busy(l), Active) && AllIn(l, IdlePart(l), Idle)
  }

  type Stamps = map<ConnId, nat>

  predicate StampedBelow(since: Stamps, clock: nat, s: seq<ConnId>) {
    forall c | c in s :: c in since && since[c] < clock
  }

  predicate NewestFirst(since: Stamps, s: seq<ConnId>)
    requires forall c | c in s :: c in since
  {
    forall i, j | 0 <= i < j < |s| :: since[s[i]] > since[s[j]]
  }

  predicate OldestFirst(since: Stamps, s: seq<ConnId>)
    requires forall c | c in s :: c in since
  {
    forall i, j | 0 <= i < j < |s| :: since[s[i]] < since[s[j]]
  }

  predicate InOrder(since: Stamps, clock: nat, busy: seq<ConnId>, idle: seq<ConnId>) {
    && StampedBelow(since, clock, busy) && StampedBelow(since, clock, idle)
    && NewestFirst(since, busy) && OldestFirst(since, idle)
  }

  /** The list layout ConnectionManager.h documents, with the counter that goes with it. */
  predicate Partition(l: Conns) {
    && WellLinked(l) && StatesAgree(l)
    && l.idleCount == |IdlePart(l)|
    && InOrder(l.since, l.clock, Busy(l), IdlePart(l))
  }

  /** Membership in the two parts, for a list split by its idle cursor. */
  lemma PartsAreDisjoint(l: Conns)
    requires WellLinked(l)
    ensures l.list == Busy(l) + IdlePart(l)
    ensures forall c :: c in l.list <==> c in Busy(l) || c in IdlePart(l)
    ensures forall c | c in Busy(l) :: c !in IdlePart(l)
    ensures NoDups(Busy(l)) && NoDups(IdlePart(l))
  {
    SplitOf(l.list, l.idleIt);
    SplitMembers(Busy(l), IdlePart(l));
  }

  /** The state of a connection says which part it is in. */
  lemma StateSaysPart(l: Conns, c: ConnId)
    requires WellLinked(l) && StatesAgree(l) && c in l.list
    ensures ActivationOf(l, c) == Active <==> c in Busy(l)
    ensures ActivationOf(l, c) == Idle <==> c in IdlePart(l)
    ensures l.idleIt == At(c) ==> ActivationOf(l, c) == Idle
  {
    PartsAreDisjoint(l);
    if l.idleIt == At(c) {
      assert IdlePart(l)[0] == c;
    }
  }

  lemma AddRefines(l: Conns, c: ConnId)
    requires WellLinked(l) && c !in l.list
    ensures var r := Add(l, c);
            WellLinked(r) && Busy(r) == [c] + Busy(l) && IdlePart(r) == IdlePart(l)
  {
    PushFrontSplits(l.list, c, l.idleIt);
    PushFrontSplits(l.list, c, l.drainIt);
  }

  lemma RemoveRefines(l: Conns, c: ConnId)
    requires WellLinked(l)
    ensures var r := Remove(l, c);
            && WellLinked(r)
            && Busy(r) == Erase(Busy(l), c) && IdlePart(r) == Erase(IdlePart(l), c)
  {
    PartsAreDisjoint(l);
    if c in l.list {
      EraseMembers(l.list, c);
      MoveOnOrStay(l.list, c, l.idleIt);
      MoveOnOrStay(l.list, c, l.drainIt);
    } else {
      EraseAbsent(Busy(l), c);
      EraseAbsent(IdlePart(l), c);
    }
  }

  /** A cursor that steps off an erased node, and stays put otherwise, loses that node and nothing else. */
  lemma MoveOnOrStay(s: seq<ConnId>, x: ConnId, c: Cursor)
    requires NoDups(s) && Valid(s, c) && x in s
    ensures var d := if c == At(x) then Next(s, x) else c;
            && Valid(Erase(s, x), d)
            && Before(Erase(s, x), d) == Erase(Before(s, c), x)
            && From(Erase(s, x), d) == Erase(From(s, c), x)
  {
    if c == At(x) {
      EraseAtCursor(s, x);
      var a, b := Before(s, c), From(Erase(s, x), Next(s, x));
      EraseAbsent(a, x);
      EraseMiddle([], x, b);
      assert [] + [x] + b == [x] + b;
    } else {
      EraseSplits(s, x, c);
    }
  }

  lemma ActivateRefines(l: Conns, c: ConnId)
    requires WellLinked(l) && c in l.list
    ensures var r := Activate(l, c);
            && WellLinked(r)
            && Busy(r) == [c] + Erase(Busy(l), c) && IdlePart(r) == Erase(IdlePart(l), c)
  {
    hide Pos, Erase, Before, From, Next;
    EraseMembers(l.list, c);
    MoveOnOrStay(l.list, c, l.idleIt);
    var erased := Erase(l.list, c);
    PushFrontSplits(erased, c, Activate(l, c).idleIt);
    if l.drainIt != At(c) {
      EraseSplits(l.list, c, l.drainIt);
    }
  }

  lemma DeactivateRefines(l: Conns, c: ConnId)
    requires WellLinked(l) && c in l.list && ActivationOf(l, c) == Active && l.idleIt != At(c)
    ensures var r := Deactivate(l, c);
            && WellLinked(r)
            && Busy(r) == Erase(Busy(l), c) && IdlePart(r) == Erase(IdlePart(l), c) + [c]
  {
    hide Pos, Erase, Before, From, Next;
    EraseMembers(l.list, c);
    EraseSplits(l.list, c, l.idleIt);
    var erased := Erase(l.list, c);
    PushBackSplits(erased, c, l.idleIt);
    if l.idleIt == End {
      SplitAt(erased, [], End);
      assert erased + [] == erased;
      SplitAt(l.list, [], End);
      assert l.list + [] == l.list;
    }
    MoveOnOrStay(l.list, c, l.drainIt);
  }

  // ---------------------------------------------------------------------------
  // Every operation keeps the partition
  // ---------------------------------------------------------------------------

  lemma EraseShifts(s: seq<ConnId>, x: ConnId)
    ensures var e, k := Erase(s, x), Pos(s, At(x));
            forall i | 0 <= i < |e| :: e[i] == if i < k then s[i] else s[i + 1]
  {
    var e, k := Erase(s, x), Pos(s, At(x));
    hide Pos;
    forall i | 0 <= i < |e| ensures e[i] == if i < k then s[i] else s[i + 1] {
      if k < |s| {
        assert e == s[..k] + s[k + 1..];
      }
    }
  }

  lemma EraseKeepsNewest(since: Stamps, s: seq<ConnId>, x: ConnId)
    requires (forall c | c in s :: c in since) && NewestFirst(since, s)
    ensures (forall c | c in Erase(s, x) :: c in since) && NewestFirst(since, Erase(s, x))
  {
    EraseShifts(s, x);
    var e, k := Erase(s, x), Pos(s, At(x));
    forall i, j | 0 <= i < j < |e| ensures since[e[i]] > since[e[j]] {
      var i', j' := if i < k then i else i + 1, if j < k then j else j + 1;
      assert e[i] == s[i'] && e[j] == s[j'];
    }
  }

  lemma EraseKeepsOldest(since: Stamps, s: seq<ConnId>, x: ConnId)
    requires (forall c | c in s :: c in since) && OldestFirst(since, s)
    ensures (forall c | c in Erase(s, x) :: c in since) && OldestFirst(since, Erase(s, x))
  {
    EraseShifts(s, x);
    var e, k := Erase(s, x), Pos(s, At(x));
    forall i, j | 0 <= i < j < |e| ensures since[e[i]] < since[e[j]] {
      var i', j' := if i < k then i else i + 1, if j < k then j else j + 1;
      assert e[i] == s[i'] && e[j] == s[j'];
    }
  }

  lemma EraseKeepsOrder(since: Stamps, clock: nat, busy: seq<ConnId>, idle: seq<ConnId>, x: ConnId)
    requires InOrder(since, clock, busy, idle) && NoDups(busy) && NoDups(idle)
    ensures InOrder(since, clock, Erase(busy, x), Erase(idle, x))
  {
    EraseMembers(busy, x);
    EraseMembers(idle, x);
    EraseKeepsNewest(since, busy, x);
    EraseKeepsOldest(since, idle, x);
  }

  /** The newest stamp goes in front of the busy part. */
  lemma StampFront(since: Stamps, clock: nat, busy: seq<ConnId>, idle: seq<ConnId>, x: ConnId)
    requires InOrder(since, clock, busy, idle) && x !in busy && x !in idle
    ensures InOrder(since[x := clock], clock + 1, [x] + busy, idle)
  {
  }

  /** The newest stamp goes behind the idle part. */
  lemma StampBack(since: Stamps, clock: nat, busy: seq<ConnId>, idle: seq<ConnId>, x: ConnId)
    requires InOrder(since, clock, busy, idle) && x !in busy && x !in idle
    ensures InOrder(since[x := clock], clock + 1, busy, idle + [x])
  {
  }

  /** Where a connection is once it has been taken out of both parts. */
  lemma ErasedFromBoth(l: Conns, c: ConnId)
    requires Partition(l)
    ensures c !in Erase(Busy(l), c) && c !in Erase(IdlePart(l), c)
    ensures forall x :: x in Erase(Busy(l), c) <==> x in Busy(l) && x != c
    ensures forall x :: x in Erase(IdlePart(l), c) <==> x in IdlePart(l) && x != c
    ensures InOrder(l.since, l.clock, Erase(Busy(l), c), Erase(IdlePart(l), c))
    ensures c in l.list ==> |Erase(IdlePart(l), c)| == |IdlePart(l)| - if ActivationOf(l, c) == Idle then 1 else 0
  {
    PartsAreDisjoint(l);
    EraseMembers(Busy(l), c);
    EraseMembers(IdlePart(l), c);
    EraseKeepsOrder(l.since, l.clock, Busy(l), IdlePart(l), c);
    if c in l.list {
      StateSaysPart(l, c);
    }
  }

  /** The partition, once the two parts of the new list are known. */
  lemma PartitionFrom(r: Conns, busy: seq<ConnId>, idle: seq<ConnId>)
    requires WellLinked(r) && Busy(r) == busy && IdlePart(r) == idle
    requires AllIn(r, busy, Active) && AllIn(r, idle, Idle)
    requires r.idleCount == |idle| && InOrder(r.since, r.clock, busy, idle)
    ensures Partition(r)
  {
  }

  lemma AddKeepsPartition(l: Conns, c: ConnId)
    requires Partition(l) && c !in l.list
    ensures Partition(Add(l, c))
  {
    PartsAreDisjoint(l);
    var busy, idle := Busy(l), IdlePart(l);
    StampFront(l.since, l.clock, busy, idle, c);
    var r := Add(l, c);
    assert AllIn(r, [c] + busy, Active) && AllIn(r, idle, Idle);
    AddRefines(l, c);
    PartitionFrom(r, [c] + busy, idle);
  }

  lemma RemoveKeepsPartition(l: Conns, c: ConnId)
    requires Partition(l)
    ensures Partition(Remove(l, c))
  {
    RemoveRefines(l, c);
    ErasedFromBoth(l, c);
    PartitionFrom(Remove(l, c), Erase(Busy(l), c), Erase(IdlePart(l), c));
  }

  lemma ActivateKeepsPartition(l: Conns, c: ConnId)
    requires Partition(l) && c in l.list
    ensures Partition(Activate(l, c))
  {
    ErasedFromBoth(l, c);
    var busy, idle := Erase(Busy(l), c), Erase(IdlePart(l), c);
    StampFront(l.since, l.clock, busy, idle, c);
    var r := Activate(l, c);
    assert AllIn(r, [c] + busy, Active) && AllIn(r, idle, Idle);
    ActivateRefines(l, c);
    PartitionFrom(r, [c] + busy, idle);
  }

  lemma DeactivateKeepsPartition(l: Conns, c: ConnId)
    requires Partition(l) && c in l.list && ActivationOf(l, c) == Active
    ensures Partition(Deactivate(l, c))
  {
    hide Busy, IdlePart, Pos;
    StateSaysPart(l, c);
    ErasedFromBoth(l, c);
    var busy, idle := Erase(Busy(l), c), Erase(IdlePart(l), c);
    StampBack(l.since, l.clock, busy, idle, c);
    var r := Deactivate(l, c);
    assert AllIn(r, busy, Active) && AllIn(r, idle + [c], Idle);
    DeactivateRefines(l, c);
    PartitionFrom(r, busy, idle + [c]);
  }

  // ---------------------------------------------------------------------------
  // The loops
  // ---------------------------------------------------------------------------

  function Min(a: nat, b: nat): (m: nat) {
    if a < b then a else b
  }

  lemma EraseHead(s: seq<ConnId>)
    requires s != []
    ensures Erase(s, s[0]) == s[1..]
  {
  }

  lemma {:induction false} DropFrontKeepsPartition(l: Conns, n: nat)
    requires Partition(l)
    ensures Partition(DropFront(l, n))
    decreases n
  {
    hide Partition;
    if n > 0 && l.list != [] {
      RemoveKeepsPartition(l, l.list[0]);
      DropFrontKeepsPartition(Remove(l, l.list[0]), n - 1);
    }
  }

  /** `dropConnections(n)` takes the first n connections and nothing else. */
  lemma {:induction false} DropFrontTakesPrefix(l: Conns, n: nat)
    ensures DropFront(l, n).list == l.list[Min(n, |l.list|)..]
    decreases n
  {
    if n > 0 && l.list != [] {
      EraseHead(l.list);
      DropFrontTakesPrefix(Remove(l, l.list[0]), n - 1);
      assert l.list[1..][Min(n - 1, |l.list| - 1)..] == l.list[Min(n, |l.list|)..];
    }
  }

  /** Advancing the idle cursor first and removing afterwards is the same as removing. */
  lemma DropIdleHeadIsRemove(l: Conns)
    requires WellLinked(l) && l.idleIt != End
    ensures DropIdleHead(l) == Remove(l, l.idleIt.id)
  {
    NextSplits(l.list, l.idleIt.id);
  }

  /** Length of the longest prefix whose idle time exceeds the threshold. */
  function OverThreshold(s: seq<ConnId>, threshold: nat, idleTime: ConnId -> nat): (k: nat)
    ensures k <= |s|
  {
    if s == [] || idleTime(s[0]) <= threshold then 0
    else 1 + OverThreshold(s[1..], threshold, idleTime)
  }

  /** One turn of the shedding loop takes the head of the idle part. */
  lemma DropIdleHeadTakesHead(l: Conns)
    requires Partition(l) && l.idleIt != End
    ensures Partition(DropIdleHead(l))
    ensures IdlePart(l) != [] && IdlePart(l)[0] == l.idleIt.id
    ensures Busy(DropIdleHead(l)) == Busy(l) && IdlePart(DropIdleHead(l)) == IdlePart(l)[1..]
  {
    var c := l.idleIt.id;
    SplitOf(l.list, l.idleIt);
    DropIdleHeadIsRemove(l);
    RemoveKeepsPartition(l, c);
    PartsAreDisjoint(l);
    RemoveRefines(l, c);
    EraseHead(IdlePart(l));
    EraseAbsent(Busy(l), c);
  }

  lemma {:induction false} ShedKeepsPartition(l: Conns, num: nat, threshold: nat, idleTime: ConnId -> nat)
    requires Partition(l)
    ensures Partition(ShedIdle(l, num, threshold, idleTime))
    decreases num
  {
    hide Partition;
    if num > 0 && l.idleIt != End && idleTime(l.idleIt.id) > threshold {
      DropIdleHeadTakesHead(l);
      ShedKeepsPartition(DropIdleHead(l), num - 1, threshold, idleTime);
    }
  }

  /** The shedding loop takes a prefix of the idle part: the first `num` over the threshold. */
  lemma {:induction false} ShedTakesIdlePrefix(l: Conns, num: nat, threshold: nat, idleTime: ConnId -> nat)
    requires Partition(l)
    ensures var r := ShedIdle(l, num, threshold, idleTime);
            var k := Min(num, OverThreshold(IdlePart(l), threshold, idleTime));
            Busy(r) == Busy(l) && IdlePart(r) == IdlePart(l)[k..]
    decreases num
  {
    hide Partition, Busy, DropIdleHead;
    var idle := IdlePart(l);
    if num > 0 && l.idleIt != End && idleTime(l.idleIt.id) > threshold {
      hide IdlePart;
      DropIdleHeadTakesHead(l);
      ShedTakesIdlePrefix(DropIdleHead(l), num - 1, threshold, idleTime);
      var k := Min(num - 1, OverThreshold(idle[1..], threshold, idleTime));
      assert idle[1..][k..] == idle[k + 1..];
    } else if l.idleIt == End {
      assert idle == [];
    }
  }

  /** How many of the listed connections are over the threshold. */
  function CountOver(s: seq<ConnId>, threshold: nat, idleTime: ConnId -> nat): (k: nat) {
    if s == [] then 0
    else (if idleTime(s[0]) > threshold then 1 else 0) + CountOver(s[1..], threshold, idleTime)
  }

  /** What `getIdleTime` promises: the longer ago a connection was deactivated, the longer it has been idle. */
  predicate IdleTimesFollow(l: Conns, idleTime: ConnId -> nat) {
    forall a, b | a in IdlePart(l) && b in IdlePart(l) && a in l.since && b in l.since && l.since[a] < l.since[b] ::
      idleTime(a) >= idleTime(b)
  }

  predicate Descending(s: seq<ConnId>, idleTime: ConnId -> nat) {
    forall i, j | 0 <= i < j < |s| :: idleTime(s[i]) >= idleTime(s[j])
  }

  lemma {:induction false} DescendingCount(s: seq<ConnId>, threshold: nat, idleTime: ConnId -> nat)
    requires Descending(s, idleTime)
    ensures CountOver(s, threshold, idleTime) == OverThreshold(s, threshold, idleTime)
  {
    if s != [] {
      DescendingCount(s[1..], threshold, idleTime);
      if idleTime(s[0]) <= threshold {
        assert forall i | 0 <= i < |s| :: idleTime(s[i]) <= threshold;
        NoneOver(s, threshold, idleTime);
      }
    }
  }

  lemma {:induction false} NoneOver(s: seq<ConnId>, threshold: nat, idleTime: ConnId -> nat)
    requires forall i | 0 <= i < |s| :: idleTime(s[i]) <= threshold
    ensures CountOver(s, threshold, idleTime) == 0
  {
    if s != [] {
      NoneOver(s[1..], threshold, idleTime);
    }
  }

  /**
   Idle shedding is optimal: of the k idle connections over the threshold it
   drops exactly min(num, k), the ones idle longest, keeps every busy
   connection, and leaves the partition intact.
   */
  lemma ShedIsOptimal(l: Conns, num: nat, threshold: nat, idleTime: ConnId -> nat)
    requires Partition(l) && IdleTimesFollow(l, idleTime)
    ensures var r := ShedIdle(l, num, threshold, idleTime);
            var k := CountOver(IdlePart(l), threshold, idleTime);
            && Partition(r) && Busy(r) == Busy(l)
            && k <= |IdlePart(l)|
            && IdlePart(r) == IdlePart(l)[Min(num, k)..]
            && (forall x, y | x in IdlePart(l)[..Min(num, k)] && y in IdlePart(r) :: idleTime(x) >= idleTime(y))
            && (forall x | x in IdlePart(l)[..Min(num, k)] :: idleTime(x) > threshold)
  {
    var idle := IdlePart(l);
    assert Descending(idle, idleTime) by {
      forall i, j | 0 <= i < j < |idle| ensures idleTime(idle[i]) >= idleTime(idle[j]) {
        assert l.since[idle[i]] < l.since[idle[j]];
      }
    }
    DescendingCount(idle, threshold, idleTime);
    ShedKeepsPartition(l, num, threshold, idleTime);
    ShedTakesIdlePrefix(l, num, threshold, idleTime);
    OverThresholdPrefix(idle, threshold, idleTime);
  }

  lemma {:induction false} OverThresholdPrefix(s: seq<ConnId>, threshold: nat, idleTime: ConnId -> nat)
    ensures forall i | 0 <= i < OverThreshold(s, threshold, idleTime) :: idleTime(s[i]) > threshold
  {
    if s != [] && idleTime(s[0]) > threshold {
      OverThresholdPrefix(s[1..], threshold, idleTime);
      forall i | 0 <= i < OverThreshold(s, threshold, idleTime) ensures idleTime(s[i]) > threshold {
        if i > 0 { assert s[i] == s[1..][i - 1]; }
      }
    }
  }

  // ---------------------------------------------------------------------------
  // Every run
  // ---------------------------------------------------------------------------

  datatype Event =
    | AddEvent(c: ConnId)
    | RemoveEvent(c: ConnId)
    | ActivateEvent(c: ConnId)
    | DeactivateEvent(c: ConnId)
    | DropEvent(n: nat)
    | ShedEvent(num: nat, threshold: nat, idleTime: ConnId -> nat)

  /** What the callers of each operation promise. */
  predicate Possible(l: Conns, e: Event) {
    match e
    case AddEvent(c) => c !in l.list
    case ActivateEvent(c) => c in l.list
    case DeactivateEvent(c) => c in l.list && ActivationOf(l, c) == Active
    case _ => true
  }

  function Apply(l: Conns, e: Event): (r: Conns)
    requires Possible(l, e)
  {
    match e
    case AddEvent(c) => Add(l, c)
    case RemoveEvent(c) => Remove(l, c)
    case ActivateEvent(c) => Activate(l, c)
    case DeactivateEvent(c) => Deactivate(l, c)
    case DropEvent(n) => DropFront(l, n)
    case ShedEvent(num, threshold, idleTime) => ShedIdle(l, num, threshold, idleTime)
  }

  predicate IsRun(l: Conns, events: seq<Event>)
    decreases |events|
  {
    events != [] ==> Possible(l, events[0]) && IsRun(Apply(l, events[0]), events[1..])
  }

  function After(l: Conns, events: seq<Event>): (r: Conns)
    requires IsRun(l, events)
    decreases |events|
  {
    if events == [] then l else After(Apply(l, events[0]), events[1..])
  }

  /** The reference: two queues and no cursor. */
  datatype Queues = Queues(busy: seq<ConnId>, idle: seq<ConnId>)

  function QueuesOf(l: Conns): (q: Queues) {
    Queues(Busy(l), IdlePart(l))
  }

  function Refer(q: Queues, e: Event): (r: Queues) {
    match e
    case AddEvent(c) => Queues([c] + q.busy, q.idle)
    case RemoveEvent(c) => Queues(Erase(q.busy, c), Erase(q.idle, c))
    case ActivateEvent(c) => Queues([c] + Erase(q.busy, c), Erase(q.idle, c))
    case DeactivateEvent(c) => Queues(Erase(q.busy, c), q.idle + [c])
    case DropEvent(n) =>
      var b := Min(n, |q.busy|);
      Queues(q.busy[b..], q.idle[Min(n - b, |q.idle|)..])
    case ShedEvent(num, threshold, idleTime) =>
      Queues(q.busy, q.idle[Min(num, OverThreshold(q.idle, threshold, idleTime))..])
  }

  function ReferAll(q: Queues, events: seq<Event>): (r: Queues)
    decreases |events|
  {
    if events == [] then q else ReferAll(Refer(q, events[0]), events[1..])
  }

  /** One step of the cursor list is one step of the two queues, and the partition survives it. */
  lemma StepRefines(l: Conns, e: Event)
    requires Partition(l) && Possible(l, e)
    ensures Partition(Apply(l, e)) && QueuesOf(Apply(l, e)) == Refer(QueuesOf(l), e)
  {
    match e
    case AddEvent(c) => AddKeepsPartition(l, c); AddRefines(l, c);
    case RemoveEvent(c) => RemoveKeepsPartition(l, c); RemoveRefines(l, c);
    case ActivateEvent(c) => ActivateKeepsPartition(l, c); ActivateRefines(l, c);
    case DeactivateEvent(c) =>
      DeactivateKeepsPartition(l, c);
      StateSaysPart(l, c);
      DeactivateRefines(l, c);
      PartsAreDisjoint(l);
      EraseAbsent(IdlePart(l), c);
    case DropEvent(n) => DropFrontKeepsPartition(l, n); DropFrontQueues(l, n);
    case ShedEvent(num, threshold, idleTime) =>
      ShedKeepsPartition(l, num, threshold, idleTime);
      ShedTakesIdlePrefix(l, num, threshold, idleTime);
  }

  /** The first connection of the list is the first busy one, or the first idle one if none is busy. */
  lemma RemoveHeadQueues(l: Conns)
    requires Partition(l) && l.list != []
    ensures QueuesOf(Remove(l, l.list[0])) ==
            if Busy(l) != [] then Queues(Busy(l)[1..], IdlePart(l)) else Queues([], IdlePart(l)[1..])
    ensures Busy(l) == [] ==> IdlePart(l) != []
  {
    var c := l.list[0];
    PartsAreDisjoint(l);
    RemoveRefines(l, c);
    if Busy(l) != [] {
      assert Busy(l)[0] == c;
      EraseHead(Busy(l));
      EraseAbsent(IdlePart(l), c);
    } else {
      assert IdlePart(l)[0] == c;
      EraseHead(IdlePart(l));
    }
  }

  lemma {:induction false} DropFrontQueues(l: Conns, n: nat)
    requires Partition(l)
    ensures QueuesOf(DropFront(l, n)) == Refer(QueuesOf(l), DropEvent(n))
    decreases n
  {
    hide Partition, Remove, Refer;
    if n > 0 && l.list != [] {
      RemoveHeadQueues(l);
      RemoveKeepsPartition(l, l.list[0]);
      DropFrontQueues(Remove(l, l.list[0]), n - 1);
      ReferDropHead(QueuesOf(l), n);
    } else {
      ReferDropNothing(QueuesOf(l), n);
    }
  }

  lemma ReferDropNothing(q: Queues, n: nat)
    requires n == 0 || (q.busy == [] && q.idle == [])
    ensures Refer(q, DropEvent(n)) == q
  {
  }

  lemma ReferDropHead(q: Queues, n: nat)
    requires n > 0 && (q.busy != [] || q.idle != [])
    ensures var tail := if q.busy != [] then Queues(q.busy[1..], q.idle) else Queues([], q.idle[1..]);
            Refer(q, DropEvent(n)) == Refer(tail, DropEvent(n - 1))
  {
    if q.busy != [] {
      var b := Min(n - 1, |q.busy| - 1);
      assert q.busy[1..][b..] == q.busy[b + 1..];
    } else {
      var d := Min(n - 1, |q.idle| - 1);
      assert q.idle[1..][d..] == q.idle[d + 1..];
    }
  }

  /**
   Over every run: everything before `idleIterator_` is active, everything from
   it on is idle, `idleConnections_` is the length of the idle part, the busy
   part is newest first and the idle part oldest first; and the two parts are
   what the two plain queues hold.
   */
  lemma {:induction false} EveryRunKeepsPartition(l: Conns, events: seq<Event>)
    requires Partition(l) && IsRun(l, events)
    ensures Partition(After(l, events))
    ensures QueuesOf(After(l, events)) == ReferAll(QueuesOf(l), events)
    decreases |events|
  {
    if events != [] {
      StepRefines(l, events[0]);
      EveryRunKeepsPartition(Apply(l, events[0]), events[1..]);
    }
  }

  /** None of the CHECKs on the counter fires: it is positive whenever it is about to be lowered. */
  lemma CountersNeverUnderflow(events: seq<Event>, c: ConnId)
    requires IsRun(EMPTY, events)
    ensures var l := After(EMPTY, events);
            && 0 <= l.idleCount <= |l.list|
            && (c in l.list && ActivationOf(l, c) == Idle ==> l.idleCount > 0)
  {
    EveryRunKeepsPartition(EMPTY, events);
    var l := After(EMPTY, events);
    PartsAreDisjoint(l);
    if c in l.list {
      StateSaysPart(l, c);
    }
  }

  // ---------------------------------------------------------------------------
  // Three operations that do not keep it
  // ---------------------------------------------------------------------------

  /** `dropAllConnections` leaves the counter behind: the layout survives exactly if nothing was idle. */
  lemma DropAllKeepsPartitionIff(l: Conns)
    requires Partition(l)
    ensures Partition(DropAll(l)) <==> IdlePart(l) == []
    ensures DropAll(l).idleCount <= |DropAll(l).list| <==> IdlePart(l) == []   // getNumActiveConnections' CHECK
  {
  }

  /** Adding a connection again only rewrites its state: the layout survives exactly if it was active. */
  lemma ReAddKeepsPartitionIff(l: Conns, c: ConnId)
    requires Partition(l) && c in l.list
    ensures Partition(ReAdd(l, c)) <==> ActivationOf(l, c) == Active
  {
    StateSaysPart(l, c);
    PartsAreDisjoint(l);
    assert Busy(ReAdd(l, c)) == Busy(l) && IdlePart(ReAdd(l, c)) == IdlePart(l);
  }

  /**
   A connection moved to another manager is marked active before its old manager
   removes it, so the old manager does not lower its counter: its layout survives
   exactly if the connection was active.
   */
  lemma TransferKeepsPartitionIff(l: Conns, c: ConnId)
    requires Partition(l) && c in l.list
    ensures Partition(Remove(ReAdd(l, c), c)) <==> ActivationOf(l, c) == Active
  {
    StateSaysPart(l, c);
    PartsAreDisjoint(l);
    var r := Remove(ReAdd(l, c), c);
    RemoveRefines(ReAdd(l, c), c);
    ErasedFromBoth(l, c);
    if ActivationOf(l, c) == Active {
      RemoveKeepsPartition(l, c);
      assert ReAdd(l, c).activation == l.activation;
    }
  }

  /**
   Idle shedding moves the cursor past a connection before dropping it, so the
   layout is restored only because the dropped connection unlinks itself.
   */
  lemma ShedNeedsRemoval(l: Conns)
    requires Partition(l) && l.idleIt != End
    ensures !Partition(l.(idleIt := Next(l.list, l.idleIt.id)))
    ensures Partition(DropIdleHead(l))
  {
    var c := l.idleIt.id;
    DropIdleHeadTakesHead(l);
    NextSplits(l.list, c);
    var r := l.(idleIt := Next(l.list, c));
    assert Busy(r) == Busy(l) + [c] && Busy(r)[|Busy(l)|] == c;
    assert c in IdlePart(l);
  }
}
