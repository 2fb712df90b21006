/**
 The connection list of ConnectionManager: one intrusive list, with the busy
 connections in front, the idle ones behind, and two cursors into it. A cursor
 names a node, not an index, because the code relies on list iterators staying
 with their node while it is unlinked and linked again elsewhere.
 */
module ConnectionList {

  /** The address of a ManagedConnection. */
  type ConnId = nat

  datatype Activation = Active | Idle

  datatype Cursor = At(id: ConnId) | End

  predicate NoDups(s: seq<ConnId>) {
    forall i, j | 0 <= i < j < |s| :: s[i] != s[j]
  }

  /** The index a cursor stands at; the length for `End`. */
  function Pos(s: seq<ConnId>, c: Cursor): (i: nat)
    ensures i <= |s|
    ensures i < |s| ==> c == At(s[i])
    ensures forall j | 0 <= j < i :: c != At(s[j])
  {
    if s == [] || c == At(s[0]) then 0 else 1 + Pos(s[1..], c)
  }

  function Before(s: seq<ConnId>, c: Cursor): (r: seq<ConnId>) {
    s[..Pos(s, c)]
  }

  function From(s: seq<ConnId>, c: Cursor): (r: seq<ConnId>) {
    s[Pos(s, c)..]
  }

  function Begin(s: seq<ConnId>): (c: Cursor) {
    if s == [] then End else At(s[0])
  }

  /** `++` of an iterator at `x`. */
  function Next(s: seq<ConnId>, x: ConnId): (c: Cursor) {
    var i := Pos(s, At(x));
    if i + 1 < |s| then At(s[i + 1]) else End
  }

  function Erase(s: seq<ConnId>, x: ConnId): (r: seq<ConnId>)
    ensures |r| == if x in s then |s| - 1 else |s|
  {
    var i := Pos(s, At(x));
    if i < |s| then s[..i] + s[i + 1..] else s
  }

  predicate Valid(s: seq<ConnId>, c: Cursor) {
    c == End || c.id in s
  }

  // ---------------------------------------------------------------------------
  // What moving one node does to the part before and the part from a cursor
  // ---------------------------------------------------------------------------

  /** In a list without duplicates a cursor has one possible index. */
  lemma PosIs(s: seq<ConnId>, i: nat)
    requires NoDups(s) && i < |s|
    ensures Pos(s, At(s[i])) == i
  {
  }

  lemma EraseMembers(s: seq<ConnId>, x: ConnId)
    requires NoDups(s)
    ensures NoDups(Erase(s, x)) && x !in Erase(s, x)
    ensures forall y :: y in Erase(s, x) <==> y in s && y != x
  {
    var i := Pos(s, At(x));
    if i < |s| {
      assert s == s[..i] + [x] + s[i + 1..];
      forall y | y in s && y != x ensures y in Erase(s, x) {
        var k :| 0 <= k < |s| && s[k] == y;
        assert if k < i then Erase(s, x)[k] == y else Erase(s, x)[k - 1] == y;
      }
    }
  }

  lemma EraseAbsent(s: seq<ConnId>, x: ConnId)
    requires x !in s
    ensures Erase(s, x) == s
  {
  }

  lemma SplitMembers(a: seq<ConnId>, b: seq<ConnId>)
    requires NoDups(a + b)
    ensures NoDups(a) && NoDups(b)
    ensures forall x | x in a :: x !in b
  {
    var s := a + b;
    forall i, j | 0 <= i < j < |a| ensures a[i] != a[j] { assert s[i] != s[j]; }
    forall i, j | 0 <= i < j < |b| ensures b[i] != b[j] { assert s[|a| + i] != s[|a| + j]; }
    forall i, j | 0 <= i < |a| && 0 <= j < |b| ensures a[i] != b[j] { assert s[i] != s[|a| + j]; }
  }

  lemma EraseMiddle(a: seq<ConnId>, x: ConnId, b: seq<ConnId>)
    requires x !in a
    ensures Erase(a + [x] + b, x) == a + b
  {
    var s := a + [x] + b;
    assert s[|a|] == x;
    var i := Pos(s, At(x));
    assert forall j | 0 <= j < |a| :: s[j] == a[j];
    assert s[..i] == a && s[i + 1..] == b;
  }

  /** A member splits a list around its first occurrence. */
  lemma SplitMember(s: seq<ConnId>, x: ConnId) returns (a: seq<ConnId>, b: seq<ConnId>)
    requires x in s
    ensures s == a + [x] + b && x !in a && Erase(s, x) == a + b
  {
    var i := Pos(s, At(x));
    a, b := s[..i], s[i + 1..];
  }

  lemma EraseLeft(a: seq<ConnId>, b: seq<ConnId>, x: ConnId)
    requires x in a
    ensures Erase(a + b, x) == Erase(a, x) + b
  {
    hide Erase;
    var a1, a2 := SplitMember(a, x);
    assert a + b == a1 + [x] + (a2 + b);
    EraseMiddle(a1, x, a2 + b);
    assert a1 + (a2 + b) == (a1 + a2) + b;
  }

  lemma EraseRight(a: seq<ConnId>, b: seq<ConnId>, x: ConnId)
    requires x !in a && x in b
    ensures Erase(a + b, x) == a + Erase(b, x)
  {
    hide Erase;
    var b1, b2 := SplitMember(b, x);
    assert a + b == (a + b1) + [x] + b2;
    EraseMiddle(a + b1, x, b2);
    assert (a + b1) + b2 == a + (b1 + b2);
  }

  lemma EraseSplit(a: seq<ConnId>, b: seq<ConnId>, x: ConnId)
    requires NoDups(a + b)
    ensures Erase(a + b, x) == Erase(a, x) + Erase(b, x)
  {
    SplitMembers(a, b);
    if x in a {
      EraseLeft(a, b, x);
      EraseAbsent(b, x);
    } else if x in b {
      EraseRight(a, b, x);
      EraseAbsent(a, x);
    } else {
      EraseAbsent(a + b, x);
      EraseAbsent(a, x);
      EraseAbsent(b, x);
    }
  }

  /** A cursor that splits a list as `a` and `b` stands where `b` begins. */
  lemma SplitAt(a: seq<ConnId>, b: seq<ConnId>, c: Cursor)
    requires NoDups(a + b)
    requires c == Begin(b)
    ensures Before(a + b, c) == a && From(a + b, c) == b
  {
    if b != [] {
      assert (a + b)[|a|] == b[0];
      PosIs(a + b, |a|);
    }
  }

  lemma SplitOf(s: seq<ConnId>, c: Cursor)
    requires Valid(s, c)
    ensures s == Before(s, c) + From(s, c) && c == Begin(From(s, c))
  {
    if c != End {
      assert Pos(s, c) < |s|;
    }
  }

  lemma NextSplits(s: seq<ConnId>, x: ConnId)
    requires NoDups(s) && x in s
    ensures Valid(s, Next(s, x)) && Next(s, x) != At(x)
    ensures Before(s, Next(s, x)) == Before(s, At(x)) + [x]
    ensures From(s, At(x)) == [x] + From(s, Next(s, x))
  {
    var i := Pos(s, At(x));
    assert s == (s[..i] + [x]) + s[i + 1..];
    assert Next(s, x) == Begin(s[i + 1..]);
    SplitAt(s[..i] + [x], s[i + 1..], Next(s, x));
  }

  lemma EraseSplits(s: seq<ConnId>, x: ConnId, c: Cursor)
    requires NoDups(s) && Valid(s, c) && c != At(x)
    ensures Valid(Erase(s, x), c)
    ensures Before(Erase(s, x), c) == Erase(Before(s, c), x)
    ensures From(Erase(s, x), c) == Erase(From(s, c), x)
  {
    var a, b := Before(s, c), From(s, c);
    SplitOf(s, c);
    EraseSplit(a, b, x);
    EraseMembers(s, x);
    assert c == Begin(Erase(b, x));
    SplitAt(Erase(a, x), Erase(b, x), c);
  }

  lemma PushFrontSplits(s: seq<ConnId>, x: ConnId, c: Cursor)
    requires NoDups(s) && Valid(s, c) && x !in s
    ensures NoDups([x] + s) && Valid([x] + s, c)
    ensures Before([x] + s, c) == [x] + Before(s, c)
    ensures From([x] + s, c) == From(s, c)
  {
    SplitOf(s, c);
    assert [x] + s == ([x] + Before(s, c)) + From(s, c);
    SplitAt([x] + Before(s, c), From(s, c), c);
  }

  lemma PushBackSplits(s: seq<ConnId>, x: ConnId, c: Cursor)
    requires NoDups(s) && Valid(s, c) && x !in s
    ensures NoDups(s + [x]) && Valid(s + [x], c)
    ensures c != End ==> Before(s + [x], c) == Before(s, c) && From(s + [x], c) == From(s, c) + [x]
    ensures c == End ==> Before(s + [x], c) == s + [x] && From(s + [x], c) == []
    ensures Before(s + [x], At(x)) == s && From(s + [x], At(x)) == [x]
  {
    SplitAt(s, [x], At(x));
    if c == End {
      SplitAt(s + [x], [], c);
      assert (s + [x]) + [] == s + [x];
    } else {
      SplitOf(s, c);
      assert s + [x] == Before(s, c) + (From(s, c) + [x]);
      SplitAt(Before(s, c), From(s, c) + [x], c);
    }
  }

  /** Erasing a node a cursor stands at, the cursor having moved on. */
  lemma EraseAtCursor(s: seq<ConnId>, x: ConnId)
    requires NoDups(s) && x in s
    ensures Valid(Erase(s, x), Next(s, x))
    ensures Before(Erase(s, x), Next(s, x)) == Before(s, At(x))
    ensures From(s, At(x)) == [x] + From(Erase(s, x), Next(s, x))
  {
    var i := Pos(s, At(x));
    var a, b := s[..i], s[i + 1..];
    assert s == a + [x] + b;
    EraseMiddle(a, x, b);
    EraseMembers(s, x);
    NextSplits(s, x);
    assert Next(s, x) == Begin(b);
    SplitAt(a, b, Begin(b));
  }
}
