/**
 PipelineBase, Pipeline::finalize and the construction of StaticPipeline: three
 vectors of contexts edited in place, from which `Finalize` sets the links that
 messages follow. A message type is a number.
 */
module PipelineLinks {

  datatype Direction = In | Out | Both

  type MessageType = nat

  class Context {
    const dir: Direction
    const kind: nat    // the handler's class
    const handler: nat // the handler
    const rin: MessageType
    const rout: MessageType
    const win: MessageType
    const wout: MessageType

    var nextIn: Context?
    var nextOut: Context?

    constructor (d: Direction, k: nat, h: nat, read: (MessageType, MessageType), write: (MessageType, MessageType))
      ensures dir == d && kind == k && handler == h
      ensures (rin, rout) == read && (win, wout) == write && nextIn == null && nextOut == null
    {
      dir, kind, handler := d, k, h;
      rin, rout, win, wout := read.0, read.1, write.0, write.1;
      nextIn, nextOut := null, null;
    }
  }

  predicate Inbound(c: Context) {
    c.dir == In || c.dir == Both
  }

  predicate Outbound(c: Context) {
    c.dir == Out || c.dir == Both
  }

  // ---------------------------------------------------------------------------
  // Parts of a list of contexts
  // ---------------------------------------------------------------------------

  /** The elements that satisfy p, in order. */
  function Filter<T>(s: seq<T>, p: T -> bool): (r: seq<T>) {
    if s == [] then [] else (if p(s[0]) then [s[0]] else []) + Filter(s[1..], p)
  }

  function InOf(s: seq<Context>): (r: seq<Context>) {
    Filter(s, Inbound)
  }

  function OutOf(s: seq<Context>): (r: seq<Context>) {
    Filter(s, Outbound)
  }

  predicate NoDups<T(==)>(s: seq<T>) {
    forall i, j | 0 <= i < j < |s| :: s[i] != s[j]
  }

  lemma {:induction false} FilterMember<T>(s: seq<T>, p: T -> bool, x: T)
    ensures x in Filter(s, p) <==> x in s && p(x)
  {
    if s != [] {
      FilterMember(s[1..], p, x);
    }
  }

  lemma {:induction false} FilterConcat<T>(a: seq<T>, b: seq<T>, p: T -> bool)
    ensures Filter(a + b, p) == Filter(a, p) + Filter(b, p)
  {
    if a == [] {
      assert a + b == b;
    } else {
      FilterConcat(a[1..], b, p);
      assert (a + b)[1..] == a[1..] + b;
      var head := if p(a[0]) then [a[0]] else [];
      assert head + (Filter(a[1..], p) + Filter(b, p)) == (head + Filter(a[1..], p)) + Filter(b, p);
    }
  }

  lemma FilterOne<T>(x: T, p: T -> bool)
    ensures Filter([x], p) == if p(x) then [x] else []
  {
    assert [x][1..] == [];
  }

  /** One element and what stands around it. */
  lemma FilterAround<T>(a: seq<T>, x: T, b: seq<T>, p: T -> bool)
    ensures Filter(a + [x] + b, p) == Filter(a, p) + (if p(x) then [x] else []) + Filter(b, p)
    ensures Filter(a + b, p) == Filter(a, p) + Filter(b, p)
  {
    FilterConcat(a + [x], b, p);
    FilterConcat(a, [x], p);
    FilterConcat(a, b, p);
    FilterOne(x, p);
  }

  lemma {:induction false} FilterNoDups<T>(s: seq<T>, p: T -> bool)
    requires NoDups(s)
    ensures NoDups(Filter(s, p))
  {
    if s != [] {
      FilterNoDups(s[1..], p);
      FilterMember(s[1..], p, s[0]);
      var rest := Filter(s[1..], p);
      forall j | 0 <= j < |rest| ensures rest[j] != s[0] {
        assert rest[j] in rest;
        assert s[0] !in s[1..];
      }
    }
  }

  lemma {:induction false} FilterAll<T>(s: seq<T>, p: T -> bool)
    requires forall i | 0 <= i < |s| :: p(s[i])
    ensures Filter(s, p) == s
  {
    if s != [] {
      FilterAll(s[1..], p);
    }
  }

  // ---------------------------------------------------------------------------
  // Chains
  // ---------------------------------------------------------------------------

  /** Following inbound links from c visits exactly s, in order, and ends in null. */
  ghost predicate ChainIn(c: Context?, s: seq<Context>)
    reads s
    decreases |s|
  {
    if s == [] then c == null else c == s[0] && ChainIn(s[0].nextIn, s[1..])
  }

  /** Following outbound links from c visits exactly s, last first, and ends in null. */
  ghost predicate ChainOut(c: Context?, s: seq<Context>)
    reads s
    decreases |s|
  {
    if s == [] then c == null else c == s[|s| - 1] && ChainOut(s[|s| - 1].nextOut, s[..|s| - 1])
  }

  function After(s: seq<Context>, i: nat): (c: Context?) {
    if i + 1 < |s| then s[i + 1] else null
  }

  function Before(s: seq<Context>, i: nat): (c: Context?)
    requires i < |s|
  {
    if i > 0 then s[i - 1] else null
  }

  ghost predicate LinkedIn(s: seq<Context>)
    reads (set c | c in s)`nextIn
  {
    forall i | 0 <= i < |s| :: s[i].nextIn == After(s, i)
  }

  ghost predicate LinkedOut(s: seq<Context>)
    reads (set c | c in s)`nextOut
  {
    forall i | 0 <= i < |s| :: s[i].nextOut == Before(s, i)
  }

  lemma {:induction false} LinkedIsChainIn(s: seq<Context>)
    requires LinkedIn(s)
    ensures ChainIn(if s == [] then null else s[0], s)
    decreases |s|
  {
    if s != [] {
      assert s[0].nextIn == After(s, 0);
      var rest := s[1..];
      forall i | 0 <= i < |rest| ensures rest[i].nextIn == After(rest, i) {
        assert s[i + 1].nextIn == After(s, i + 1);
      }
      LinkedIsChainIn(rest);
    }
  }

  lemma {:induction false} LinkedIsChainOut(s: seq<Context>)
    requires LinkedOut(s)
    ensures ChainOut(if s == [] then null else s[|s| - 1], s)
    decreases |s|
  {
    if s != [] {
      var n := |s| - 1;
      assert s[n].nextOut == Before(s, n);
      var rest := s[..n];
      forall i | 0 <= i < |rest| ensures rest[i].nextOut == Before(rest, i) {
        assert s[i].nextOut == Before(s, i);
      }
      LinkedIsChainOut(rest);
    }
  }

  /** Every context accepts what its predecessor passes on. */
  predicate InTypes(s: seq<Context>) {
    forall i | 0 <= i < |s| - 1 :: s[i].rout == s[i + 1].rin
  }

  predicate OutTypes(s: seq<Context>) {
    forall i | 0 < i < |s| :: s[i].wout == s[i - 1].win
  }

  // ---------------------------------------------------------------------------
  // Edits
  // ---------------------------------------------------------------------------

  /** `remove<H>()` and, with a handler given, `remove(h)`. */
  datatype Target = OfKind(kind: nat) | Handler(kind: nat, handler: nat)

  predicate Hits(t: Target, c: Context) {
    match t
    case OfKind(k) => c.kind == k
    case Handler(k, h) => c.kind == k && c.handler == h
  }

  function Without(s: seq<Context>, t: Target): (r: seq<Context>) {
    Filter(s, c => !Hits(t, c))
  }

  datatype Edit = AddFront(c: Context) | AddBack(c: Context) | RemoveFront | RemoveBack | Remove(t: Target)

  /** What the list of contexts becomes; a removal that finds nothing throws and changes nothing. */
  function Edited(s: seq<Context>, e: Edit): (r: seq<Context>) {
    match e
    case AddFront(c) => [c] + s
    case AddBack(c) => s + [c]
    case RemoveFront => if s == [] then [] else s[1..]
    case RemoveBack => if s == [] then [] else s[..|s| - 1]
    case Remove(t) => Without(s, t)
  }

  function AllEdited(s: seq<Context>, edits: seq<Edit>): (r: seq<Context>)
    decreases |edits|
  {
    if edits == [] then s else AllEdited(Edited(s, edits[0]), edits[1..])
  }

  /** Every addition brings a new context. */
  predicate FreshAdds(s: seq<Context>, edits: seq<Edit>)
    decreases |edits|
  {
    edits == [] ||
    (&& (edits[0].AddFront? || edits[0].AddBack? ==> edits[0].c !in s)
     && FreshAdds(Edited(s, edits[0]), edits[1..]))
  }

  lemma DropHit(s: seq<Context>, i: nat, t: Target)
    requires i < |s| && Hits(t, s[i])
    ensures Without(s[..i] + s[i + 1..], t) == Without(s, t)
  {
    assert s == s[..i] + [s[i]] + s[i + 1..];
    FilterAround(s[..i], s[i], s[i + 1..], c => !Hits(t, c));
  }

  // ---------------------------------------------------------------------------
  // The pipeline
  // ---------------------------------------------------------------------------

  class Pipeline {
    const readType: MessageType  // R
    const writeType: MessageType // W

    var ctxs: seq<Context>
    var inCtxs: seq<Context>
    var outCtxs: seq<Context>
    var front: Context?
    var back: Context?

    ghost predicate Valid()
      reads this
    {
      NoDups(ctxs) && inCtxs == InOf(ctxs) && outCtxs == OutOf(ctxs)
    }

    constructor (r: MessageType, w: MessageType)
      ensures Valid() && ctxs == [] && front == null && back == null && readType == r && writeType == w
    {
      readType, writeType := r, w;
      ctxs, inCtxs, outCtxs, front, back := [], [], [], null, null;
    }

    /** `addHelper` */
    method AddHelper(c: Context, atFront: bool)
      requires Valid() && c !in ctxs
      modifies `ctxs, `inCtxs, `outCtxs
      ensures Valid() && ctxs == if atFront then [c] + old(ctxs) else old(ctxs) + [c]
    {
      hide Filter;
      FilterOne(c, Inbound);
      FilterOne(c, Outbound);
      if atFront {
        FilterConcat([c], ctxs, Inbound);
        FilterConcat([c], ctxs, Outbound);
      } else {
        FilterConcat(ctxs, [c], Inbound);
        FilterConcat(ctxs, [c], Outbound);
      }
      ctxs := if atFront then [c] + ctxs else ctxs + [c];
      if c.dir == Both || c.dir == In {
        inCtxs := if atFront then [c] + inCtxs else inCtxs + [c];
      }
      if c.dir == Both || c.dir == Out {
        outCtxs := if atFront then [c] + outCtxs else outCtxs + [c];
      }
    }

    /** `std::find` and `erase` on one of the two sub-vectors: the CHECK that c is there holds. */
    static method FindAndErase(s: seq<Context>, c: Context, ghost pre: seq<Context>, ghost post: seq<Context>)
      returns (r: seq<Context>)
      requires s == pre + [c] + post && c !in pre
      ensures r == pre + post
    {
      var i := 0;
      while s[i] != c
        invariant 0 <= i <= |pre|
        decreases |pre| - i
      {
        i := i + 1;
      }
      r := s[..i] + s[i + 1..];
      assert s[..i] == pre && s[i + 1..] == post;
    }

    /** The same for the part that p selects, if c belongs to it. */
    static method ErasePart(s: seq<Context>, p: Context -> bool, c: Context,
                            ghost pre: seq<Context>, ghost post: seq<Context>)
      returns (r: seq<Context>)
      requires s == Filter(pre + [c] + post, p) && c !in pre
      ensures r == Filter(pre + post, p)
    {
      hide Filter;
      FilterAround(pre, c, post, p);
      FilterMember(pre, p, c);
      if p(c) {
        r := FindAndErase(s, c, Filter(pre, p), Filter(post, p));
      } else {
        r := s;
      }
    }

    method RemoveAt(at: nat)
      requires Valid() && at < |ctxs|
      modifies `ctxs, `inCtxs, `outCtxs
      ensures Valid() && ctxs == old(ctxs)[..at] + old(ctxs)[at + 1..]
    {
      hide Filter;
      var c := ctxs[at];
      ghost var pre, post := ctxs[..at], ctxs[at + 1..];
      assert ctxs == pre + [c] + post;
      inCtxs := ErasePart(inCtxs, Inbound, c, pre, post);
      outCtxs := ErasePart(outCtxs, Outbound, c, pre, post);
      ctxs := ctxs[..at] + ctxs[at + 1..];
    }

    method RemoveFront() returns (ok: bool)
      requires Valid()
      modifies `ctxs, `inCtxs, `outCtxs
      ensures Valid() && ctxs == Edited(old(ctxs), Edit.RemoveFront)
      ensures ok <==> old(ctxs) != []
      ensures if ok then [old(ctxs)[0]] + ctxs == old(ctxs) else ctxs == []
    {
      if ctxs == [] {
        return false;
      }
      RemoveAt(0);
      return true;
    }

    method RemoveBack() returns (ok: bool)
      requires Valid()
      modifies `ctxs, `inCtxs, `outCtxs
      ensures Valid() && ctxs == Edited(old(ctxs), Edit.RemoveBack)
      ensures ok <==> old(ctxs) != []
      ensures if ok then ctxs + [old(ctxs)[|old(ctxs)| - 1]] == old(ctxs) else ctxs == []
    {
      if ctxs == [] {
        return false;
      }
      RemoveAt(|ctxs| - 1);
      return true;
    }

    /** `removeHelper`: every context it is meant for goes, and it throws exactly if there was none. */
    method RemoveHelper(t: Target) returns (ok: bool)
      requires Valid()
      modifies `ctxs, `inCtxs, `outCtxs
      ensures Valid() && ctxs == Without(old(ctxs), t)
      ensures ok <==> exists c :: c in old(ctxs) && Hits(t, c)
      ensures !ok ==> ctxs == old(ctxs)
      ensures forall c | c in old(ctxs) ::
                c !in ctxs <==> c.kind == t.kind && (t.Handler? ==> c.handler == t.handler)
    {
      ghost var was := ctxs;
      ok := false;
      var i := 0;
      while i < |ctxs|
        invariant Valid() && 0 <= i <= |ctxs|
        invariant Without(ctxs, t) == Without(was, t)
        invariant forall j | 0 <= j < i :: !Hits(t, ctxs[j])
        invariant !ok ==> ctxs == was
        invariant ok ==> exists c :: c in was && Hits(t, c)
        invariant forall c | c in ctxs :: c in was
        decreases |ctxs| - i
      {
        if Hits(t, ctxs[i]) {
          DropHit(ctxs, i, t);
          assert ctxs[i] in was;
          RemoveAt(i);
          ok := true;
        } else {
          i := i + 1;
        }
      }
      FilterAll(ctxs, c => !Hits(t, c));
      forall c | c in was ensures c in ctxs <==> !Hits(t, c) {
        FilterMember(was, c => !Hits(t, c), c);
      }
    }

    /** The inbound half of `finalize`; it throws at the first type mismatch. */
    method LinkInbound() returns (ok: bool)
      requires Valid()
      modifies `front, (set c | c in ctxs)`nextIn
      ensures ok <==> InTypes(inCtxs)
      ensures ok ==> LinkedIn(inCtxs)
      ensures front == if inCtxs != [] && inCtxs[0].rin == readType then inCtxs[0] else null
    {
      hide Filter;
      FilterNoDups(ctxs, Inbound);
      front := null;
      if inCtxs != [] {
        front := if inCtxs[0].rin == readType then inCtxs[0] else null;
        for i := 0 to |inCtxs| - 1
          modifies (set c | c in ctxs)`nextIn
          invariant forall k | 0 <= k < i :: inCtxs[k].rout == inCtxs[k + 1].rin
          invariant forall k | 0 <= k < i :: inCtxs[k].nextIn == inCtxs[k + 1]
        {
          if inCtxs[i].rout != inCtxs[i + 1].rin {
            return false;
          }
          FilterMember(ctxs, Inbound, inCtxs[i]);
          inCtxs[i].nextIn := inCtxs[i + 1];
        }
        FilterMember(ctxs, Inbound, inCtxs[|inCtxs| - 1]);
        inCtxs[|inCtxs| - 1].nextIn := null;
      }
      ok := true;
    }

    method LinkOutbound() returns (ok: bool)
      requires Valid()
      modifies `back, (set c | c in ctxs)`nextOut
      ensures ok <==> OutTypes(outCtxs)
      ensures ok ==> LinkedOut(outCtxs)
      ensures back == if outCtxs != [] && outCtxs[|outCtxs| - 1].win == writeType then outCtxs[|outCtxs| - 1] else null
    {
      hide Filter;
      FilterNoDups(ctxs, Outbound);
      back := null;
      if outCtxs != [] {
        var last := |outCtxs| - 1;
        back := if outCtxs[last].win == writeType then outCtxs[last] else null;
        for i := last downto 0
          modifies (set c | c in ctxs)`nextOut
          invariant forall k | i < k <= last :: outCtxs[k].wout == outCtxs[k - 1].win
          invariant forall k | i < k <= last :: outCtxs[k].nextOut == outCtxs[k - 1]
        {
          if outCtxs[i + 1].wout != outCtxs[i].win {
            return false;
          }
          FilterMember(ctxs, Outbound, outCtxs[i + 1]);
          outCtxs[i + 1].nextOut := outCtxs[i];
        }
        FilterMember(ctxs, Outbound, outCtxs[0]);
        outCtxs[0].nextOut := null;
      }
      ok := true;
    }

    /**
     `finalize`: it succeeds exactly if the handlers' types fit, and then inbound
     links visit the inbound handlers in order, outbound links the outbound
     handlers in reverse, both ending in null.
     */
    method Finalize() returns (ok: bool)
      requires Valid()
      modifies `front, `back, (set c | c in ctxs)`nextIn, (set c | c in ctxs)`nextOut
      ensures ok <==> InTypes(InOf(ctxs)) && OutTypes(OutOf(ctxs))
      ensures ok ==>
                var ins, outs := InOf(ctxs), OutOf(ctxs);
                && ChainIn(if ins == [] then null else ins[0], ins)
                && ChainOut(if outs == [] then null else outs[|outs| - 1], outs)
                && front == (if ins != [] && ins[0].rin == readType then ins[0] else null)
                && back == (if outs != [] && outs[|outs| - 1].win == writeType then outs[|outs| - 1] else null)
    {
      hide Filter, NoDups, InTypes, OutTypes, LinkedIn, LinkedOut, ChainIn, ChainOut;
      ok := LinkInbound();
      if ok {
        ok := LinkOutbound();
        if ok {
          LinkedIsChainIn(inCtxs);
          LinkedIsChainOut(outCtxs);
        }
      }
    }

    /**
     Any edits, those that throw included, followed by `finalize`: the chains are
     those of the edited list.
     */
    method Rebuild(edits: seq<Edit>, ghost all: set<Context>) returns (ok: bool)
      requires Valid() && FreshAdds(ctxs, edits)
      requires forall c | c in ctxs :: c in all
      requires forall e | e in edits && (e.AddFront? || e.AddBack?) :: e.c in all
      modifies this, all`nextIn, all`nextOut
      ensures Valid() && ctxs == AllEdited(old(ctxs), edits)
      ensures ok <==> InTypes(InOf(ctxs)) && OutTypes(OutOf(ctxs))
      ensures ok ==>
                var ins, outs := InOf(ctxs), OutOf(ctxs);
                && ChainIn(if ins == [] then null else ins[0], ins)
                && ChainOut(if outs == [] then null else outs[|outs| - 1], outs)
    {
      hide Filter, NoDups, InTypes, OutTypes, ChainIn, ChainOut;
      ghost var goal := AllEdited(ctxs, edits);
      for i := 0 to |edits|
        modifies `ctxs, `inCtxs, `outCtxs
        invariant Valid() && FreshAdds(ctxs, edits[i..])
        invariant AllEdited(ctxs, edits[i..]) == goal
        invariant forall c | c in ctxs :: c in all
      {
        assert edits[i..][0] == edits[i] && edits[i..][1..] == edits[i + 1..];
        assert edits[i] in edits;
        match edits[i] {
          case AddFront(c) => AddHelper(c, true);
          case AddBack(c) => AddHelper(c, false);
          case RemoveFront => var _ := RemoveFront();
          case RemoveBack => var _ := RemoveBack();
          case Remove(t) =>
            ghost var was := ctxs;
            var _ := RemoveHelper(t);
            forall c | c in ctxs ensures c in was { FilterMember(was, c => !Hits(t, c), c); }
        }
      }
      assert edits[|edits|..] == [];
      ok := Finalize();
    }

    /** The constructor of StaticPipeline: the handlers' contexts are added at the front, last one first. */
    method AddStatically(cs: seq<Context>)
      requires Valid() && ctxs == [] && NoDups(cs)
      modifies `ctxs, `inCtxs, `outCtxs
      ensures Valid() && ctxs == cs
    {
      for i := |cs| downto 0
        invariant Valid() && ctxs == cs[i..]
      {
        AddHelper(cs[i], true);
      }
    }

    /** The same handlers through `addBack`: the same lists, so the same chains after `finalize`. */
    method AddInOrder(cs: seq<Context>)
      requires Valid() && ctxs == [] && NoDups(cs)
      modifies `ctxs, `inCtxs, `outCtxs
      ensures Valid() && ctxs == cs
    {
      for i := 0 to |cs|
        invariant Valid() && ctxs == cs[..i]
      {
        AddHelper(cs[i], false);
      }
    }
  }
}
